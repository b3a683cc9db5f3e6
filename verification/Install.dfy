/** What a committed batch leaves in the kernel, exactly when it is accepted, and what it does to packets. */
module Install {
  import opened Common
  import opened Ordering
  import opened Address
  import opened Policy
  import opened Packets
  import opened RulesetIR
  import opened Compile
  import opened NftRules
  import opened Expand
  import opened Kernel
  import opened Apply

  // ----- sets -----

  predicate Distinct(names: seq<string>) {
    forall i, j | 0 <= i < j < |names| :: names[i] != names[j]
  }

  lemma ClashStep(sets: SetTable, init: seq<string>, last: string)
    requires last !in init
    ensures ClashAmong(sets, init + [last])
       <==> (ClashAmong(sets, init)
             || (Occupied(sets, last, Inet4) && exists n :: n in init && Occupied(sets, n, Inet6) && n + "_6" == last)
             || (Occupied(sets, last, Inet6) && last + "_6" in init && Occupied(sets, last + "_6", Inet4)))
  {
    assert |last + "_6"| != |last|;
  }

  lemma Inet4NameTaken(sets: SetTable, init: seq<string>, last: string)
    requires last !in init && forall n :: n in init ==> n in sets
    ensures last in KernelSetsOf(sets, init)
       <==> exists n :: n in init && Occupied(sets, n, Inet6) && n + "_6" == last
  {
    KernelNamesOf(sets, init, last);
    forall n | n in init && Occupied(sets, n, Inet6) && n + "_6" == last ensures last == KernelName(n, Inet6) {}
  }

  lemma Inet6NameTaken(sets: SetTable, init: seq<string>, last: string)
    requires last !in init && forall n :: n in init ==> n in sets
    ensures last + "_6" in KernelSetsOf(sets, init)
       <==> last + "_6" in init && Occupied(sets, last + "_6", Inet4)
  {
    KernelNamesOf(sets, init, last + "_6");
    if last + "_6" in KernelSetsOf(sets, init) {
      var n, f :| n in init && Occupied(sets, n, f) && last + "_6" == KernelName(n, f);
      if f == Inet6 { SuffixInjective(last, n); }
    }
    if last + "_6" in init && Occupied(sets, last + "_6", Inet4) {
      assert last + "_6" == KernelName(last + "_6", Inet4);
    }
  }

  /** A clash that one more name brings. */
  predicate ClashWith(sets: SetTable, init: seq<string>, last: string) {
    || (Occupied(sets, last, Inet4) && exists n :: n in init && Occupied(sets, n, Inet6) && n + "_6" == last)
    || (Occupied(sets, last, Inet6) && last + "_6" in init && Occupied(sets, last + "_6", Inet4))
  }

  lemma NameRuns(sets: SetTable, init: seq<string>, last: string)
    requires last !in init && last in sets && forall n :: n in init ==> n in sets
    requires RunBatch(PlanSets(sets, init).msgs, Has(EMPTY_TABLE))
         == Some(Has(EMPTY_TABLE.(sets := KernelSetsOf(sets, init))))
    ensures RunBatch(PlanName(PlanSets(sets, init), last, sets[last]).msgs, Has(EMPTY_TABLE))
         == if ClashWith(sets, init, last) then None
            else Some(Has(EMPTY_TABLE.(sets := KeepFamily(KeepFamily(KernelSetsOf(sets, init), last, sets[last], Inet4),
                                                         last, sets[last], Inet6))))
  {
    hide RunBatch, PlanFamily, FamilyKeys, FamilyAddrs, PlanSets, KernelSetsOf;
    var plan0, kernel0 := PlanSets(sets, init), KernelSetsOf(sets, init);
    var plan1 := PlanFamily(plan0, last, sets[last], Inet4);
    RunPlanFamily(plan0, kernel0, last, sets[last], Inet4);
    Inet4NameTaken(sets, init, last);
    if Occupied(sets, last, Inet4) && last in kernel0 {
      RunRejected(plan1, last, sets[last], Inet6);
    } else {
      RunPlanFamily(plan1, KeepFamily(kernel0, last, sets[last], Inet4), last, sets[last], Inet6);
      Inet6NameTaken(sets, init, last);
      assert |last + "_6"| != |last|;
    }
  }

  lemma NameRejected(plan: Plan, name: string, addrs: set<IpAddr>)
    requires RunBatch(plan.msgs, Has(EMPTY_TABLE)) == None
    ensures RunBatch(PlanName(plan, name, addrs).msgs, Has(EMPTY_TABLE)) == None
  {
    hide RunBatch, PlanFamily;
    RunRejected(plan, name, addrs, Inet4);
    RunRejected(PlanFamily(plan, name, addrs, Inet4), name, addrs, Inet6);
  }

  /** The set messages run exactly when no kernel name is wanted twice. */
  lemma {:induction false} PlanRuns(sets: SetTable, names: seq<string>)
    requires Distinct(names) && forall n :: n in names ==> n in sets
    ensures RunBatch(PlanSets(sets, names).msgs, Has(EMPTY_TABLE))
         == if ClashAmong(sets, names) then None else Some(Has(EMPTY_TABLE.(sets := KernelSetsOf(sets, names))))
  {
    if names == [] {
    } else {
      hide RunBatch, PlanName, KeepFamily, ClashAmong, Occupied;
      var init, last := names[..|names| - 1], names[|names| - 1];
      assert names == init + [last] && last !in init;
      PlanRuns(sets, init);
      ClashStep(sets, init, last);
      if ClashAmong(sets, init) {
        NameRejected(PlanSets(sets, init), last, sets[last]);
      } else {
        NameRuns(sets, init, last);
      }
    }
  }

  lemma {:induction false} PlanIndex(sets: SetTable, names: seq<string>, n: string, f: Family)
    requires forall m :: m in names ==> m in sets
    ensures var index := PlanSets(sets, names).index;
            && ((n, f) in index <==> n in names && Occupied(sets, n, f))
            && ((n, f) in index ==> index[(n, f)] == KernelName(n, f))
  {
    if names == [] {
    } else {
      assert names == names[..|names| - 1] + [names[|names| - 1]];
      PlanIndex(sets, names[..|names| - 1], n, f);
    }
  }

  /** Messages come in pairs: a set of one family, then its elements, each as long as an address of that family. */
  predicate Typed(msgs: seq<Msg>) {
    forall i | 0 <= i < |msgs| :: TypedAt(msgs, i)
  }

  predicate TypedAt(msgs: seq<Msg>, i: nat)
    requires i < |msgs|
  {
    if msgs[i].AddSet? then i + 1 < |msgs| && msgs[i + 1].AddElements? && msgs[i + 1].setName == msgs[i].name
    else 0 < i && msgs[i - 1].AddSet? && Fill(msgs[i - 1], msgs[i])
  }

  /** The elements go into the set, which does not stay empty, and are of its family. */
  predicate Fill(add: Msg, elements: Msg)
    requires add.AddSet?
  {
    && elements.AddElements? && elements.setName == add.name && elements.keys != []
    && forall x :: x in elements.keys ==> |x| == if add.family.Inet4? then 4 else 16
  }

  lemma TypedAppend(a: seq<Msg>, b: seq<Msg>)
    requires Typed(a) && Typed(b)
    ensures Typed(a + b)
  {
    hide Fill;
    var c := a + b;
    forall i | 0 <= i < |c| ensures TypedAt(c, i) {
      if i < |a| {
        assert TypedAt(a, i);
      } else {
        assert TypedAt(b, i - |a|);
      }
    }
  }

  lemma FamilyTyped(plan: Plan, name: string, addrs: set<IpAddr>, f: Family)
    requires Typed(plan.msgs)
    ensures Typed(PlanFamily(plan, name, addrs, f).msgs)
  {
    hide AscendingAddrs, Typed;
    var members := FamilyAddrs(addrs, f);
    if members != {} {
      var kernelName := KernelName(name, f);
      var keys := OctetKeys(AscendingAddrs(members));
      PairTyped(kernelName, plan.lastId + 1, f, members);
      TypedAppend(plan.msgs, [AddSet(kernelName, plan.lastId + 1, f), AddElements(kernelName, keys)]);
    }
  }

  lemma PairTyped(name: string, id: nat, f: Family, members: set<IpAddr>)
    requires members != {} && forall a :: a in members ==> FamilyOf(a) == f
    ensures Typed([AddSet(name, id, f), AddElements(name, OctetKeys(AscendingAddrs(members)))])
  {
    var ordered := AscendingAddrs(members);
    var keys := OctetKeys(ordered);
    var a :| a in members;
    assert a in ordered;
    forall x | x in keys ensures |x| == if f.Inet4? then 4 else 16 {
      var i :| 0 <= i < |keys| && keys[i] == x;
      assert ordered[i] in ordered;
    }
  }

  /** Every set is created with the family of the elements put into it, and none stays empty. */
  lemma {:induction false} SetsTyped(sets: SetTable, names: seq<string>)
    requires forall m :: m in names ==> m in sets
    ensures Typed(PlanSets(sets, names).msgs)
  {
    hide Typed;
    if names == [] {
      NothingTyped();
    } else {
      var init, last := names[..|names| - 1], names[|names| - 1];
      SetsTyped(sets, init);
      FamilyTyped(PlanSets(sets, init), last, sets[last], Inet4);
      FamilyTyped(PlanFamily(PlanSets(sets, init), last, sets[last], Inet4), last, sets[last], Inet6);
    }
  }

  lemma NothingTyped()
    ensures Typed([])
  {}

  predicate IdsAscend(plan: Plan) {
    && (forall i :: 0 <= i < |plan.msgs| && plan.msgs[i].AddSet? ==> 0 < plan.msgs[i].id <= plan.lastId)
    && (forall i, j :: 0 <= i < j < |plan.msgs| && plan.msgs[i].AddSet? && plan.msgs[j].AddSet? ==>
          plan.msgs[i].id < plan.msgs[j].id)
  }

  lemma FamilyIdsAscend(plan: Plan, name: string, addrs: set<IpAddr>, f: Family)
    requires IdsAscend(plan)
    ensures IdsAscend(PlanFamily(plan, name, addrs, f))
  {}

  /** Set ids are non-zero and each used once: they count upwards through the batch. */
  lemma {:induction false} SetIdsAscend(sets: SetTable, names: seq<string>)
    requires forall m :: m in names ==> m in sets
    ensures IdsAscend(PlanSets(sets, names))
  {
    if names == [] {
    } else {
      var init, last := names[..|names| - 1], names[|names| - 1];
      SetIdsAscend(sets, init);
      FamilyIdsAscend(PlanSets(sets, init), last, sets[last], Inet4);
      FamilyIdsAscend(PlanFamily(PlanSets(sets, init), last, sets[last], Inet4), last, sets[last], Inet6);
    }
  }

  lemma {:induction false} KernelSetAt(sets: SetTable, names: seq<string>, n: string, f: Family)
    requires Distinct(names) && forall m :: m in names ==> m in sets
    requires !ClashAmong(sets, names) && n in names && Occupied(sets, n, f)
    ensures KernelName(n, f) in KernelSetsOf(sets, names)
    ensures KernelSetsOf(sets, names)[KernelName(n, f)] == FamilyKeys(sets[n], f)
  {
    hide FamilyKeys, FamilyAddrs;
    var init, last := names[..|names| - 1], names[|names| - 1];
    assert names == init + [last] && last !in init;
    ClashStep(sets, init, last);
    assert |last + "_6"| != |last|;
    if n != last {
      KernelSetAt(sets, init, n, f);
      if f == Inet6 && n + "_6" == last + "_6" { SuffixInjective(n, last); }
    }
  }

  function KernelSetsFor(rs: Rules): KernelSets {
    KernelSetsOf(rs.sets, AscendingStrings(rs.sets.Keys))
  }

  lemma NamesOf(rs: Rules)
    ensures var names := AscendingStrings(rs.sets.Keys);
            && Distinct(names)
            && (forall n :: n in names <==> n in rs.sets)
            && (ClashAmong(rs.sets, names) <==> Clash(rs.sets))
  {}

  /** Without a clash, the kernel sets represent the named sets, split by family. */
  lemma PlanRepresents(rs: Rules)
    requires !Clash(rs.sets)
    ensures Represents(rs.sets, SetPlan(rs).index, KernelSetsFor(rs))
  {
    NamesOf(rs);
    var names := AscendingStrings(rs.sets.Keys);
    forall n, f
      ensures (n, f) in SetPlan(rs).index <==> n in rs.sets && FamilyKeys(rs.sets[n], f) != {}
      ensures (n, f) in SetPlan(rs).index ==>
        SetPlan(rs).index[(n, f)] in KernelSetsFor(rs)
        && KernelSetsFor(rs)[SetPlan(rs).index[(n, f)]] == FamilyKeys(rs.sets[n], f)
    {
      PlanIndex(rs.sets, names, n, f);
      if n in rs.sets {
        KeysOfMembers(rs.sets[n], f);
        if Occupied(rs.sets, n, f) { KernelSetAt(rs.sets, names, n, f); }
      }
    }
  }

  // ----- every reference resolves -----

  lemma ResolvesAppend(a: seq<Expr>, b: seq<Expr>, t: Table)
    requires Resolves(a, t) && Resolves(b, t)
    ensures Resolves(a + b, t)
  {}

  /** The kernel holds every set the index names. */
  predicate Provides(t: Table, index: SetIndex) {
    forall k :: k in index ==> index[k] in t.sets
  }

  lemma BlockResolves(c: Cidr, source: bool, op: CmpOp, t: Table)
    ensures Resolves(BlockExprs(c, source, op), t)
  {}

  lemma {:induction false} ExceptsResolve(except: seq<Cidr>, source: bool, t: Table)
    ensures Resolves(ExceptExprs(except, source), t)
  {
    if except == [] {
    } else {
      ExceptsResolve(except[..|except| - 1], source, t);
      BlockResolves(except[|except| - 1], source, Neq, t);
      ResolvesAppend(ExceptExprs(except[..|except| - 1], source), BlockExprs(except[|except| - 1], source, Neq), t);
    }
  }

  lemma SetResolves(kernelName: string, f: Family, source: bool, t: Table)
    requires kernelName in t.sets
    ensures Resolves(SetExprs(kernelName, f, source), t)
  {}

  lemma SideResolves(side: Side, index: SetIndex, f: Family, source: bool, t: Table)
    requires Provides(t, index) && SideExprs(side, index, f, source).Ok?
    ensures Resolves(SideExprs(side, index, f, source).value, t)
  {
    match side
    case AnySide =>
    case AddrSide(a) =>
      assert Resolves(AddrExprs(a, source), t);
    case CidrSide(cidr, except) =>
      BlockResolves(cidr, source, Eq, t);
      ExceptsResolve(except, source, t);
      ResolvesAppend(BlockExprs(cidr, source, Eq), ExceptExprs(except, source), t);
    case SetSide(name) =>
      SetResolves(index[(name, f)], f, source, t);
  }

  lemma CellResolves(rule: Rule, c: Cell, index: SetIndex, group: Option<u16>, t: Table)
    requires Provides(t, index) && CellExprs(rule, c, index, group).Ok?
    ensures Resolves(CellExprs(rule, c, index, group).value, t)
  {
    hide SideExprs, TailExprs, Resolves;
    SideResolves(c.src, index, c.family, true, t);
    SideResolves(c.dst, index, c.family, false, t);
    var src, dst := SideExprs(c.src, index, c.family, true).value, SideExprs(c.dst, index, c.family, false).value;
    var tail := TailExprs(rule, c.port, group);
    TailResolves(rule, c.port, group, t);
    ResolvesAppend(src, dst, t);
    ResolvesAppend(src + dst, tail, t);
    VerdictResolves(rule, t);
    ResolvesAppend(src + dst + tail, [Immediate(NftVerdictOf(rule.verdict))], t);
  }

  lemma TailResolves(rule: Rule, port: Option<Port>, group: Option<u16>, t: Table)
    ensures Resolves(TailExprs(rule, port, group), t)
  {}

  lemma VerdictResolves(rule: Rule, t: Table)
    ensures Resolves([Immediate(NftVerdictOf(rule.verdict))], t)
  {}

  predicate AllResolve(rules: seq<seq<Expr>>, t: Table) {
    forall i | 0 <= i < |rules| :: Resolves(rules[i], t)
  }

  lemma {:induction false} ExpandedResolve(rules: seq<Rule>, index: SetIndex, group: Option<u16>, t: Table)
    requires Provides(t, index) && AllBuild(rules, index, group)
    ensures AllResolve(ExpandAll(rules, index, group), t)
  {
    if rules == [] {
    } else {
      var init, last := rules[..|rules| - 1], rules[|rules| - 1];
      ExpandedResolve(init, index, group, t);
      var cells := Cells(last, index);
      var built := BuildAll(last, cells, index, group);
      forall i | 0 <= i < |built| ensures Resolves(built[i], t) {
        assert cells[i] in cells;
        CellResolves(last, cells[i], index, group, t);
      }
    }
  }

  // ----- the table a batch leaves -----

  lemma {:induction false} RunRules(t: Table, chain: string, rules: seq<seq<Expr>>)
    requires chain in t.chains && AllResolve(rules, t)
    ensures RunBatch(RuleMsgs(chain, rules), Has(t))
         == Some(Has(t.(chains := t.chains[chain := t.chains[chain] + rules])))
    decreases |rules|
  {
    if rules == [] {
      assert t.chains[chain] + [] == t.chains[chain];
      assert t.chains[chain := t.chains[chain]] == t.chains;
    } else {
      var t1 := t.(chains := t.chains[chain := t.chains[chain] + [rules[0]]]);
      assert RuleMsgs(chain, rules)[1..] == RuleMsgs(chain, rules[1..]);
      assert Process(RuleMsgs(chain, rules)[0], Has(t)) == Some(Has(t1));
      assert AllResolve(rules[1..], t1) by {
        forall i | 0 <= i < |rules| - 1 ensures Resolves(rules[1..][i], t1) { assert Resolves(rules[i + 1], t); }
      }
      RunRules(t1, chain, rules[1..]);
      assert t.chains[chain] + [rules[0]] + rules[1..] == t.chains[chain] + rules;
      assert t1.chains[chain := t.chains[chain] + rules] == t.chains[chain := t.chains[chain] + rules];
    }
  }

  function ChainsOf(egress: seq<seq<Expr>>, ingress: seq<seq<Expr>>, forward: seq<seq<Expr>>)
    : map<string, seq<seq<Expr>>>
  {
    map[EGRESS_CHAIN := egress, INGRESS_CHAIN := ingress, CHAIN := forward]
  }

  /** The whole of suho's table for a ruleset. */
  function TableOf(rs: Rules, group: Option<u16>): Table
    requires Buildable(rs, group)
  {
    var index := SetPlan(rs).index;
    Table(KernelSetsFor(rs),
          ChainsOf(ExpandAll(rs.egress, index, group), ExpandAll(rs.ingress, index, group), ForwardRules()),
          Some(CHAIN))
  }

  lemma ReplaceStartsEmpty(k: Kernel)
    ensures RunBatch(REPLACE, k) == Some(Has(EMPTY_TABLE))
  {
    assert REPLACE[1..] == [DelTable, AddTable] && [DelTable, AddTable][1..] == [AddTable] && [AddTable][1..] == [];
    var k1 := if k.NoTable? then Has(EMPTY_TABLE) else k;
    assert RunBatch([AddTable], NoTable) == RunBatch([], Has(EMPTY_TABLE));
    assert RunBatch([DelTable, AddTable], k1) == RunBatch([AddTable], NoTable);
  }

  function StageTable(sets: KernelSets, egress: seq<seq<Expr>>, ingress: seq<seq<Expr>>,
      forward: seq<seq<Expr>>): Table {
    Table(sets, ChainsOf(egress, ingress, forward), Some(CHAIN))
  }

  lemma ChainsAdded(sets: KernelSets)
    ensures RunBatch(ADD_CHAINS, Has(EMPTY_TABLE.(sets := sets))) == Some(Has(StageTable(sets, [], [], [])))
  {
    var t0 := EMPTY_TABLE.(sets := sets);
    var t1 := t0.(chains := map[EGRESS_CHAIN := []]);
    var t2 := t1.(chains := map[EGRESS_CHAIN := [], INGRESS_CHAIN := []]);
    var t3 := StageTable(sets, [], [], []);
    assert ADD_CHAINS[1..] == [AddChain(INGRESS_CHAIN), AddBaseChain(CHAIN)];
    assert ADD_CHAINS[1..][1..] == [AddBaseChain(CHAIN)] && [AddBaseChain(CHAIN)][1..] == [];
    assert Process(AddChain(EGRESS_CHAIN), Has(t0)) == Some(Has(t1));
    assert Process(AddChain(INGRESS_CHAIN), Has(t1)) == Some(Has(t2));
    assert t2.chains[CHAIN := []] == t3.chains;
    assert Process(AddBaseChain(CHAIN), Has(t2)) == Some(Has(t3));
    assert RunBatch([AddBaseChain(CHAIN)], Has(t2)) == RunBatch([], Has(t3));
  }

  /** References resolve by what sets and chains exist, not by what the chains hold. */
  lemma ResolveInStage(
      rules: seq<seq<Expr>>, sets: KernelSets, egress: seq<seq<Expr>>, ingress: seq<seq<Expr>>, forward: seq<seq<Expr>>)
    requires AllResolve(rules, StageTable(sets, [], [], []))
    ensures AllResolve(rules, StageTable(sets, egress, ingress, forward))
  {
    forall j | 0 <= j < |rules| ensures Resolves(rules[j], StageTable(sets, egress, ingress, forward)) {
      assert Resolves(rules[j], StageTable(sets, [], [], []));
    }
  }

  lemma EgressAdded(sets: KernelSets, rules: seq<seq<Expr>>)
    requires AllResolve(rules, StageTable(sets, [], [], []))
    ensures RunBatch(RuleMsgs(EGRESS_CHAIN, rules), Has(StageTable(sets, [], [], [])))
         == Some(Has(StageTable(sets, rules, [], [])))
  {
    RunRules(StageTable(sets, [], [], []), EGRESS_CHAIN, rules);
    assert [] + rules == rules;
    assert ChainsOf([], [], [])[EGRESS_CHAIN := rules] == ChainsOf(rules, [], []);
  }

  lemma IngressAdded(sets: KernelSets, egress: seq<seq<Expr>>, rules: seq<seq<Expr>>)
    requires AllResolve(rules, StageTable(sets, [], [], []))
    ensures RunBatch(RuleMsgs(INGRESS_CHAIN, rules), Has(StageTable(sets, egress, [], [])))
         == Some(Has(StageTable(sets, egress, rules, [])))
  {
    ResolveInStage(rules, sets, egress, [], []);
    RunRules(StageTable(sets, egress, [], []), INGRESS_CHAIN, rules);
    assert [] + rules == rules;
    assert ChainsOf(egress, [], [])[INGRESS_CHAIN := rules] == ChainsOf(egress, rules, []);
  }

  lemma ForwardAdded(sets: KernelSets, egress: seq<seq<Expr>>, ingress: seq<seq<Expr>>)
    ensures RunBatch(RuleMsgs(CHAIN, ForwardRules()), Has(StageTable(sets, egress, ingress, [])))
         == Some(Has(StageTable(sets, egress, ingress, ForwardRules())))
  {
    var rules := ForwardRules();
    assert AllResolve(rules, StageTable(sets, egress, ingress, []));
    RunRules(StageTable(sets, egress, ingress, []), CHAIN, rules);
    assert [] + rules == rules;
    assert ChainsOf(egress, ingress, [])[CHAIN := rules] == ChainsOf(egress, ingress, rules);
  }

  lemma RulesAdded(sets: KernelSets, egress: seq<seq<Expr>>, ingress: seq<seq<Expr>>)
    requires AllResolve(egress, StageTable(sets, [], [], [])) && AllResolve(ingress, StageTable(sets, [], [], []))
    ensures RunBatch(RuleMsgs(EGRESS_CHAIN, egress) + RuleMsgs(INGRESS_CHAIN, ingress)
                     + RuleMsgs(CHAIN, ForwardRules()),
                     Has(StageTable(sets, [], [], [])))
         == Some(Has(StageTable(sets, egress, ingress, ForwardRules())))
  {
    var e, i, f := RuleMsgs(EGRESS_CHAIN, egress), RuleMsgs(INGRESS_CHAIN, ingress), RuleMsgs(CHAIN, ForwardRules());
    EgressAdded(sets, egress);
    IngressAdded(sets, egress, ingress);
    ForwardAdded(sets, egress, ingress);
    RunAppend(e, i, Has(StageTable(sets, [], [], [])));
    RunAppend(e + i, f, Has(StageTable(sets, [], [], [])));
  }

  /** After the sets are in, chains and rules always go in. */
  lemma ChainsAndRulesRun(rs: Rules, group: Option<u16>)
    requires Buildable(rs, group) && !Clash(rs.sets)
    ensures RunBatch(ADD_CHAINS + RuleBatch(rs, group), Has(EMPTY_TABLE.(sets := KernelSetsFor(rs))))
         == Some(Has(TableOf(rs, group)))
  {
    var sets, index := KernelSetsFor(rs), SetPlan(rs).index;
    var t0 := StageTable(sets, [], [], []);
    ChainsAdded(sets);
    ProvidedSets(rs, t0);
    ExpandedResolve(rs.egress, index, group, t0);
    ExpandedResolve(rs.ingress, index, group, t0);
    RulesAdded(sets, ExpandAll(rs.egress, index, group), ExpandAll(rs.ingress, index, group));
    RunAppend(ADD_CHAINS, RuleBatch(rs, group), Has(EMPTY_TABLE.(sets := sets)));
  }

  /** The transaction for a ruleset is accepted exactly when no two set parts want one kernel
      name; then the table is the ruleset's build, whatever was there before, else nothing changes. */
  lemma CommitExact(rs: Rules, group: Option<u16>, k: Kernel)
    requires Buildable(rs, group)
    ensures Commit(BatchOf(rs, group), k) == if Clash(rs.sets) then (k, false) else (Has(TableOf(rs, group)), true)
  {
    ReplaceStartsEmpty(k);
    NamesOf(rs);
    PlanRuns(rs.sets, AscendingStrings(rs.sets.Keys));
    var tail := ADD_CHAINS + RuleBatch(rs, group);
    RunAppend(REPLACE, SetPlan(rs).msgs + tail, k);
    RunAppend(SetPlan(rs).msgs, tail, Has(EMPTY_TABLE));
    if !Clash(rs.sets) {
      ChainsAndRulesRun(rs, group);
    }
  }

  /** Whatever was there before, the committed table has the base chain `forward`, which passes replies and
      then jumps to the two stages, and the chains of the two stages. */
  lemma CommittedChains(rs: Rules, group: Option<u16>, k: Kernel)
    requires Buildable(rs, group) && !Clash(rs.sets)
    ensures var after := Commit(BatchOf(rs, group), k).0;
            && after.Has? && after.table.base == Some("forward")
            && after.table.chains.Keys == {"forward", "suho_egress", "suho_ingress"}
            && |after.table.chains["forward"]| == 3
            && after.table.chains["forward"][1] == [Immediate(NfJump("suho_egress"))]
            && after.table.chains["forward"][2] == [Immediate(NfJump("suho_ingress"))]
  {
    hide Commit, BatchOf, ExpandAll, Buildable;
    CommitExact(rs, group, k);
  }

  lemma ProvidedSets(rs: Rules, t: Table)
    requires !Clash(rs.sets) && t.sets == KernelSetsFor(rs)
    ensures Provides(t, SetPlan(rs).index)
  {
    PlanRepresents(rs);
    forall k | k in SetPlan(rs).index ensures SetPlan(rs).index[k] in t.sets {
      assert (k.0, k.1) in SetPlan(rs).index;
    }
  }

  /** A sound ruleset always builds. */
  lemma SoundBuilds(rs: Rules, group: Option<u16>)
    requires Sound(rs)
    ensures Buildable(rs, group)
  {
    forall r | r in rs.egress || r in rs.ingress
      ensures CellsBuild(r, Cells(r, SetPlan(rs).index), SetPlan(rs).index, group)
    {
      CellsAlwaysBuild(r, SetPlan(rs).index, group);
    }
  }

  // ----- what the table does to packets -----

  lemma RuleEval(
      t: Table, rule: Rule, rest: seq<seq<Expr>>, sets: SetTable, index: SetIndex, group: Option<u16>, p: Packet,
      depth: nat)
    requires SingleFamily(p) && Represents(sets, index, t.sets) && WellFormed(rule)
    requires CellsBuild(rule, Cells(rule, index), index, group)
    ensures EvalRules(t, BuildAll(rule, Cells(rule, index), index, group) + rest, p, depth)
         == if !Fires(rule, sets, p, group.Some?) then EvalRules(t, rest, p, depth)
            else if rule.verdict.Drop? then Final(false) else Fell
  {
    var block := BuildAll(rule, Cells(rule, index), index, group);
    ExpansionMeaning(rule, sets, index, t.sets, group, p);
    EvalBlock(t, block, rest, NftVerdictOf(rule.verdict), p, depth);
  }

  function AfterMatch(first: Option<Verdict>, otherwise: ChainEnd): ChainEnd {
    match first
    case None => otherwise
    case Some(v) => if v.Drop? then Final(false) else Fell
  }

  lemma FirstMatchLast(init: seq<Rule>, last: Rule, sets: SetTable, p: Packet, logging: bool)
    ensures FirstMatch(init + [last], sets, p, logging)
         == var first := FirstMatch(init, sets, p, logging);
            if first.Some? then first else if Fires(last, sets, p, logging) then Some(last.verdict) else None
  {
    FirstMatchAppend(init, [last], sets, p, logging);
    assert [last][1..] == [];
  }

  lemma AllBuildSplit(init: seq<Rule>, last: Rule, index: SetIndex, group: Option<u16>)
    requires AllBuild(init + [last], index, group)
    ensures AllBuild(init, index, group) && CellsBuild(last, Cells(last, index), index, group)
  {
    hide Cells, CellsBuild;
    assert last in init + [last];
  }

  lemma ExpandAllSplit(init: seq<Rule>, last: Rule, rest: seq<seq<Expr>>, index: SetIndex, group: Option<u16>)
    requires AllBuild(init + [last], index, group)
    ensures AllBuild(init, index, group) && CellsBuild(last, Cells(last, index), index, group)
    ensures ExpandAll(init + [last], index, group) + rest
         == ExpandAll(init, index, group) + (BuildAll(last, Cells(last, index), index, group) + rest)
  {
    hide Cells, CellsBuild, BuildAll, AllBuild;
    AllBuildSplit(init, last, index, group);
    assert (init + [last])[..|init|] == init;
  }

  lemma {:induction false} ChainEval(
      t: Table, rules: seq<Rule>, rest: seq<seq<Expr>>, sets: SetTable, index: SetIndex, group: Option<u16>, p: Packet,
      depth: nat)
    requires SingleFamily(p) && Represents(sets, index, t.sets) && AllBuild(rules, index, group)
    requires forall r :: r in rules ==> WellFormed(r)
    ensures EvalRules(t, ExpandAll(rules, index, group) + rest, p, depth)
         == AfterMatch(FirstMatch(rules, sets, p, group.Some?), EvalRules(t, rest, p, depth))
  {
    hide EvalRules, Cells, CellsBuild, BuildAll, Fires, WellFormed, Represents;
    if rules == [] {
      assert [] + rest == rest;
    } else {
      var init, last := rules[..|rules| - 1], rules[|rules| - 1];
      assert rules == init + [last];
      ExpandAllSplit(init, last, rest, index, group);
      var block := BuildAll(last, Cells(last, index), index, group);
      ChainEval(t, init, block + rest, sets, index, group, p, depth);
      RuleEval(t, last, rest, sets, index, group, p, depth);
      FirstMatchLast(init, last, sets, p, group.Some?);
    }
  }

  /** A stage chain drops exactly what first-match drops, and hands everything else back. */
  lemma StageEval(t: Table, rules: seq<Rule>, sets: SetTable, index: SetIndex, group: Option<u16>, p: Packet,
      depth: nat)
    requires SingleFamily(p) && Represents(sets, index, t.sets) && AllBuild(rules, index, group)
    requires forall r :: r in rules ==> WellFormed(r)
    ensures EvalRules(t, ExpandAll(rules, index, group), p, depth)
         == if FirstMatch(rules, sets, p, group.Some?) == Some(Verdict.Drop) then Final(false) else Fell
  {
    ChainEval(t, rules, [], sets, index, group, p, depth);
    assert ExpandAll(rules, index, group) + [] == ExpandAll(rules, index, group);
  }

  lemma JumpOutcome(chain: string, p: Packet, sets: KernelSets)
    ensures Outcome([Immediate(NfJump(chain))], p, sets) == Decided(NfJump(chain))
  {
    NothingGuards(p, sets);
    VerdictAfter([], NfJump(chain), p, sets, true);
    assert [] + [Immediate(NfJump(chain))] == [Immediate(NfJump(chain))];
  }

  lemma ReplyOutcome(p: Packet, sets: KernelSets)
    ensures Outcome(CtGuard(REPLY_BITS) + [Immediate(NfAccept)], p, sets)
         == if ReplyTraffic(p) then Decided(NfAccept) else Broke
  {
    hide Exec;
    CtGuardMeaning(REPLY_BITS, p, sets);
    MaskedState(p.ct);
    VerdictAfter(CtGuard(REPLY_BITS), NfAccept, p, sets, ReplyTraffic(p));
  }

  /** The base chain: replies are accepted, and the rest must survive both stages. */
  lemma ForwardEval(t: Table, p: Packet, depth: nat)
    requires EGRESS_CHAIN in t.chains && INGRESS_CHAIN in t.chains && depth > 0
    ensures var egress := EvalRules(t, t.chains[EGRESS_CHAIN], p, depth - 1);
            var ingress := EvalRules(t, t.chains[INGRESS_CHAIN], p, depth - 1);
            EvalRules(t, ForwardRules(), p, depth)
              == if ReplyTraffic(p) then Final(true)
                 else if egress.Final? then egress
                 else ingress
  {
    hide CtGuard, Outcome, ReplyTraffic;
    ReplyOutcome(p, t.sets);
    JumpOutcome(EGRESS_CHAIN, p, t.sets);
    JumpOutcome(INGRESS_CHAIN, p, t.sets);
    var toEgress, toIngress := [Immediate(NfJump(EGRESS_CHAIN))], [Immediate(NfJump(INGRESS_CHAIN))];
    assert ForwardRules()[1..] == [toEgress, toIngress];
    assert [toEgress, toIngress][1..] == [toIngress] && [toIngress][1..] == [];
    assert EvalRules(t, [toIngress], p, depth) == EvalRules(t, t.chains[INGRESS_CHAIN], p, depth - 1);
    assert EvalRules(t, [toEgress, toIngress], p, depth)
        == var end := EvalRules(t, t.chains[EGRESS_CHAIN], p, depth - 1);
           if end.Final? then end else EvalRules(t, [toIngress], p, depth);
  }

  /** The programmed table refines the ruleset, for every packet in every conntrack state. */
  lemma TableMeaning(rs: Rules, group: Option<u16>, p: Packet)
    requires Sound(rs) && Buildable(rs, group) && !Clash(rs.sets) && SingleFamily(p)
    ensures Accepts(Has(TableOf(rs, group)), p)
       <==> (ReplyTraffic(p)
             || (FirstMatch(rs.egress, rs.sets, p, group.Some?) != Some(Verdict.Drop)
                 && FirstMatch(rs.ingress, rs.sets, p, group.Some?) != Some(Verdict.Drop)))
  {
    var t, index := TableOf(rs, group), SetPlan(rs).index;
    TableChains(rs, group);
    assert Represents(rs.sets, index, t.sets) by { PlanRepresents(rs); }
    StagesOf(t, rs, index, group, p);
    VerdictByStages(t, p,
                    FirstMatch(rs.egress, rs.sets, p, group.Some?) == Some(Verdict.Drop),
                    FirstMatch(rs.ingress, rs.sets, p, group.Some?) == Some(Verdict.Drop));
  }

  function StageEnd(drops: bool): ChainEnd {
    if drops then Final(false) else Fell
  }

  lemma VerdictByStages(t: Table, p: Packet, egressDrops: bool, ingressDrops: bool)
    requires t.base == Some(CHAIN) && t.chains.Keys == {CHAIN, EGRESS_CHAIN, INGRESS_CHAIN}
    requires t.chains[CHAIN] == ForwardRules()
    requires EvalRules(t, t.chains[EGRESS_CHAIN], p, JUMP_STACK - 1) == StageEnd(egressDrops)
    requires EvalRules(t, t.chains[INGRESS_CHAIN], p, JUMP_STACK - 1) == StageEnd(ingressDrops)
    ensures Accepts(Has(t), p) <==> ReplyTraffic(p) || (!egressDrops && !ingressDrops)
  {
    ForwardEval(t, p, JUMP_STACK);
  }

  lemma StagesOf(t: Table, rs: Rules, index: SetIndex, group: Option<u16>, p: Packet)
    requires Sound(rs) && SingleFamily(p) && Represents(rs.sets, index, t.sets)
    requires AllBuild(rs.egress, index, group) && AllBuild(rs.ingress, index, group)
    ensures EvalRules(t, ExpandAll(rs.egress, index, group), p, JUMP_STACK - 1)
         == if FirstMatch(rs.egress, rs.sets, p, group.Some?) == Some(Verdict.Drop) then Final(false) else Fell
    ensures EvalRules(t, ExpandAll(rs.ingress, index, group), p, JUMP_STACK - 1)
         == if FirstMatch(rs.ingress, rs.sets, p, group.Some?) == Some(Verdict.Drop) then Final(false) else Fell
  {
    StageEval(t, rs.egress, rs.sets, index, group, p, JUMP_STACK - 1);
    StageEval(t, rs.ingress, rs.sets, index, group, p, JUMP_STACK - 1);
  }

  lemma TableChains(rs: Rules, group: Option<u16>)
    requires Buildable(rs, group)
    ensures var t, index := TableOf(rs, group), SetPlan(rs).index;
            && t.sets == KernelSetsFor(rs) && t.base == Some(CHAIN)
            && t.chains.Keys == {CHAIN, EGRESS_CHAIN, INGRESS_CHAIN}
            && t.chains[EGRESS_CHAIN] == ExpandAll(rs.egress, index, group)
            && t.chains[INGRESS_CHAIN] == ExpandAll(rs.ingress, index, group)
            && t.chains[CHAIN] == ForwardRules()
  {
    hide ExpandAll, KernelSetsFor, ForwardRules, SetPlan, Buildable;
  }
}
