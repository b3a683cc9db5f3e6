/** The enforcer: one batch that replaces suho's whole table with the build of a ruleset. */
module Apply {
  import opened Common
  import opened Ordering
  import opened Address
  import opened Policy
  import opened RulesetIR
  import opened NftRules
  import opened Expand
  import opened Kernel
  import opened Acks
  import Netlink

  const CHAIN := "forward"
  const EGRESS_CHAIN := "suho_egress"
  const INGRESS_CHAIN := "suho_ingress"

  // ----- splitting sets by family -----

  function KernelName(name: string, f: Family): string {
    if f == Inet4 then name else name + "_6"
  }

  function FamilyAddrs(addrs: set<IpAddr>, f: Family): set<IpAddr> {
    set a | a in addrs && FamilyOf(a) == f
  }

  function OctetKeys(addrs: seq<IpAddr>): seq<seq<byte>> {
    seq(|addrs|, i requires 0 <= i < |addrs| => Octets(addrs[i]))
  }

  /** Set messages so far, the last set id given out, and the sets they create. */
  datatype Plan = Plan(msgs: seq<Msg>, lastId: nat, index: SetIndex)

  function PlanFamily(plan: Plan, name: string, addrs: set<IpAddr>, f: Family): Plan {
    var members := FamilyAddrs(addrs, f);
    if members == {} then plan else
      var kernelName := KernelName(name, f);
      Plan(plan.msgs + [AddSet(kernelName, plan.lastId + 1, f),
                        AddElements(kernelName, OctetKeys(AscendingAddrs(members)))],
           plan.lastId + 1,
           plan.index[(name, f) := kernelName])
  }

  function PlanName(plan: Plan, name: string, addrs: set<IpAddr>): Plan {
    PlanFamily(PlanFamily(plan, name, addrs, Inet4), name, addrs, Inet6)
  }

  function PlanSets(sets: SetTable, names: seq<string>): Plan
    requires forall n :: n in names ==> n in sets
  {
    if names == [] then Plan([], 0, map[]) else
      var last := names[|names| - 1];
      PlanName(PlanSets(sets, names[..|names| - 1]), last, sets[last])
  }

  method BuildSets(sets: SetTable, names: seq<string>) returns (plan: Plan)
    requires forall n :: n in names ==> n in sets
    ensures plan == PlanSets(sets, names)
  {
    plan := Plan([], 0, map[]);
    for i := 0 to |names|
      invariant plan == PlanSets(sets, names[..i])
    {
      assert names[..i + 1][..i] == names[..i];
      plan := PlanFamily(plan, names[i], sets[names[i]], Inet4);
      plan := PlanFamily(plan, names[i], sets[names[i]], Inet6);
    }
    assert names[..|names|] == names;
  }

  function SetPlan(rs: Rules): Plan {
    PlanSets(rs.sets, AscendingStrings(rs.sets.Keys))
  }

  // ----- rules -----

  predicate AllBuild(rules: seq<Rule>, index: SetIndex, group: Option<u16>) {
    forall r :: r in rules ==> CellsBuild(r, Cells(r, index), index, group)
  }

  function ExpandAll(rules: seq<Rule>, index: SetIndex, group: Option<u16>): seq<seq<Expr>>
    requires AllBuild(rules, index, group)
  {
    if rules == [] then [] else
      var last := rules[|rules| - 1];
      ExpandAll(rules[..|rules| - 1], index, group) + BuildAll(last, Cells(last, index), index, group)
  }

  function RuleMsgs(chain: string, rules: seq<seq<Expr>>): seq<Msg> {
    seq(|rules|, i requires 0 <= i < |rules| => AddRule(chain, rules[i]))
  }

  /** The error of the first rule that cannot be expanded. */
  function FirstRuleError(rules: seq<Rule>, index: SetIndex, group: Option<u16>): Option<NftError> {
    if rules == [] then None else
      var before := FirstRuleError(rules[..|rules| - 1], index, group);
      if before.Some? then before
      else FirstError(rules[|rules| - 1], Cells(rules[|rules| - 1], index), index, group)
  }

  /** Later rules do not change which error is first. */
  lemma {:induction false} FirstRuleErrorStays(rules: seq<Rule>, i: nat, index: SetIndex, group: Option<u16>)
    requires i <= |rules| && FirstRuleError(rules[..i], index, group).Some?
    ensures FirstRuleError(rules, index, group) == FirstRuleError(rules[..i], index, group)
  {
    hide FirstError, Cells;
    if i == |rules| {
      assert rules[..i] == rules;
    } else {
      assert rules[..|rules| - 1][..i] == rules[..i];
      FirstRuleErrorStays(rules[..|rules| - 1], i, index, group);
    }
  }

  lemma NoRulesBuild(index: SetIndex, group: Option<u16>)
    ensures AllBuild([], index, group) && ExpandAll([], index, group) == [] && FirstRuleError([], index, group) == None
  {}

  /** One more rule that expands. */
  lemma ChainStep(rules: seq<Rule>, i: nat, index: SetIndex, group: Option<u16>)
    requires i < |rules| && AllBuild(rules[..i], index, group) && FirstRuleError(rules[..i], index, group).None?
    requires CellsBuild(rules[i], Cells(rules[i], index), index, group)
    ensures AllBuild(rules[..i + 1], index, group) && FirstRuleError(rules[..i + 1], index, group).None?
    ensures ExpandAll(rules[..i + 1], index, group)
         == ExpandAll(rules[..i], index, group) + BuildAll(rules[i], Cells(rules[i], index), index, group)
  {
    hide Cells, CellsBuild, BuildAll, FirstError;
    assert rules[..i + 1] == rules[..i] + [rules[i]] && rules[..i + 1][..i] == rules[..i];
    NoFirstError(rules[i], Cells(rules[i], index), index, group);
  }

  /** The first rule that does not expand. */
  lemma ChainFails(rules: seq<Rule>, i: nat, index: SetIndex, group: Option<u16>)
    requires i < |rules| && FirstRuleError(rules[..i], index, group).None?
    requires FirstError(rules[i], Cells(rules[i], index), index, group).Some?
    ensures !AllBuild(rules, index, group)
    ensures FirstRuleError(rules, index, group) == FirstError(rules[i], Cells(rules[i], index), index, group)
  {
    hide Cells, CellsBuild, FirstError;
    assert rules[..i + 1][..i] == rules[..i];
    FirstRuleErrorStays(rules, i + 1, index, group);
    NoFirstError(rules[i], Cells(rules[i], index), index, group);
    assert rules[i] in rules;
  }

  method BuildChain(chain: string, rules: seq<Rule>, index: SetIndex, group: Option<u16>)
    returns (r: Result<seq<Msg>, NftError>)
    ensures r.Ok? <==> AllBuild(rules, index, group)
    ensures r.Ok? ==> r.value == RuleMsgs(chain, ExpandAll(rules, index, group))
    ensures FirstRuleError(rules, index, group) == if r.Ok? then None else Some(r.error)
  {
    hide Cells, CellsBuild, BuildAll, FirstError, ExpandAll, AllBuild, FirstRuleError, RuleMsgs;
    NoRulesBuild(index, group);
    var out := [];
    for i := 0 to |rules|
      invariant AllBuild(rules[..i], index, group) && FirstRuleError(rules[..i], index, group).None?
      invariant out == ExpandAll(rules[..i], index, group)
    {
      var more := ExpandRule(rules[i], index, group);
      if more.Err? {
        ChainFails(rules, i, index, group);
        return Err(more.error);
      }
      ChainStep(rules, i, index, group);
      out := out + more.value;
    }
    assert rules[..|rules|] == rules;
    r := Ok(RuleMsgs(chain, out));
  }

  /** Replies bypass policy; everything else goes through the egress, then the ingress stage. */
  function ForwardRules(): seq<seq<Expr>> {
    [CtGuard(REPLY_BITS) + [Immediate(NfAccept)],
     [Immediate(NfJump(EGRESS_CHAIN))],
     [Immediate(NfJump(INGRESS_CHAIN))]]
  }

  const REPLACE := [AddTable, DelTable, AddTable]

  const ADD_CHAINS := [AddChain(EGRESS_CHAIN), AddChain(INGRESS_CHAIN), AddBaseChain(CHAIN)]

  predicate Buildable(rs: Rules, group: Option<u16>) {
    var index := SetPlan(rs).index;
    AllBuild(rs.egress, index, group) && AllBuild(rs.ingress, index, group)
  }

  function RuleBatch(rs: Rules, group: Option<u16>): seq<Msg>
    requires Buildable(rs, group)
  {
    var index := SetPlan(rs).index;
    RuleMsgs(EGRESS_CHAIN, ExpandAll(rs.egress, index, group))
    + RuleMsgs(INGRESS_CHAIN, ExpandAll(rs.ingress, index, group))
    + RuleMsgs(CHAIN, ForwardRules())
  }

  /** The whole transaction: replace the table, then sets, chains, and rules. */
  function BatchOf(rs: Rules, group: Option<u16>): seq<Msg>
    requires Buildable(rs, group)
  {
    REPLACE + (SetPlan(rs).msgs + (ADD_CHAINS + RuleBatch(rs, group)))
  }

  datatype ApplyError = CannotBuild(error: NftError) | NotConfirmed

  /** The host's nftables state, as far as suho touches it. */
  class Host {
    var kernel: Kernel

    constructor (k: Kernel)
      ensures kernel == k
    {
      kernel := k;
    }

    /** Send a batch, which the kernel commits whole or not at all, and drain its acknowledgements. */
    method Send(msgs: seq<Msg>, link: Link) returns (ok: bool)
      modifies this
      ensures (kernel, ok) == SentOver(msgs, old(kernel), link)
    {
      match link
      case Down =>
        ok := false;
      case Up(receives) =>
        kernel := Commit(msgs, kernel).0;
        var r := Netlink.DrainAcks(receives, |msgs|);
        ok := r == Netlink.Success;
    }
  }

  class NftEnforcer {
    const flowlogGroup: Option<u16>

    constructor (group: Option<u16>)
      ensures flowlogGroup == group
    {
      flowlogGroup := group;
    }

    /** A failing egress rule is reported before a failing ingress rule. */
    function BuildError(rs: Rules): Option<NftError> {
      var egress := FirstRuleError(rs.egress, SetPlan(rs).index, flowlogGroup);
      if egress.Some? then egress else FirstRuleError(rs.ingress, SetPlan(rs).index, flowlogGroup)
    }

    method BuildBatch(rs: Rules) returns (r: Result<seq<Msg>, NftError>)
      ensures r.Ok? <==> Buildable(rs, flowlogGroup)
      ensures r.Ok? ==> r.value == BatchOf(rs, flowlogGroup)
      ensures r.Err? ==> Some(r.error) == BuildError(rs)
    {
      var plan := BuildSets(rs.sets, AscendingStrings(rs.sets.Keys));
      var egress := BuildChain(EGRESS_CHAIN, rs.egress, plan.index, flowlogGroup);
      if egress.Err? {
        return Err(egress.error);
      }
      var ingress := BuildChain(INGRESS_CHAIN, rs.ingress, plan.index, flowlogGroup);
      if ingress.Err? {
        return Err(ingress.error);
      }
      r := Ok(REPLACE + (plan.msgs + (ADD_CHAINS + (egress.value + ingress.value + RuleMsgs(CHAIN, ForwardRules())))));
    }

    method Apply(rs: Rules, host: Host, link: Link) returns (r: Result<(), ApplyError>)
      modifies host
      ensures Buildable(rs, flowlogGroup) ==>
        && (host.kernel, r.Ok?) == SentOver(BatchOf(rs, flowlogGroup), old(host.kernel), link)
        && (r.Err? ==> r.error == NotConfirmed)
      ensures !Buildable(rs, flowlogGroup)
           ==> BuildError(rs).Some? && r == Err(CannotBuild(BuildError(rs).value)) && host.kernel == old(host.kernel)
    {
      var batch := BuildBatch(rs);
      if batch.Err? {
        return Err(CannotBuild(batch.error));
      }
      var ok := host.Send(batch.value, link);
      r := if ok then Ok(()) else Err(NotConfirmed);
    }
  }

  // ----- the kernel sets a plan leaves -----

  function KeepFamily(kernel: KernelSets, name: string, addrs: set<IpAddr>, f: Family): KernelSets {
    if FamilyAddrs(addrs, f) == {} then kernel else kernel[KernelName(name, f) := FamilyKeys(addrs, f)]
  }

  function KernelSetsOf(sets: SetTable, names: seq<string>): KernelSets
    requires forall n :: n in names ==> n in sets
  {
    if names == [] then map[] else
      var last := names[|names| - 1];
      KeepFamily(KeepFamily(KernelSetsOf(sets, names[..|names| - 1]), last, sets[last], Inet4), last, sets[last], Inet6)
  }

  predicate Occupied(sets: SetTable, name: string, f: Family) {
    name in sets && FamilyAddrs(sets[name], f) != {}
  }

  /** Two different parts want one kernel name: `x_6` holds IPv4 members and `x` holds IPv6 members. */
  predicate ClashAmong(sets: SetTable, names: seq<string>) {
    exists n :: n in names && n + "_6" in names && Occupied(sets, n, Inet6) && Occupied(sets, n + "_6", Inet4)
  }

  predicate Clash(sets: SetTable) {
    exists n :: n in sets && n + "_6" in sets && Occupied(sets, n, Inet6) && Occupied(sets, n + "_6", Inet4)
  }

  lemma KeysOfMembers(addrs: set<IpAddr>, f: Family)
    ensures (set x | x in OctetKeys(AscendingAddrs(FamilyAddrs(addrs, f)))) == FamilyKeys(addrs, f)
    ensures FamilyKeys(addrs, f) == {} <==> FamilyAddrs(addrs, f) == {}
  {
    var ordered := AscendingAddrs(FamilyAddrs(addrs, f));
    var keys := OctetKeys(ordered);
    forall x | x in FamilyKeys(addrs, f) ensures x in keys {
      var a :| a in addrs && FamilyOf(a) == f && Octets(a) == x;
      assert a in ordered;
      var i :| 0 <= i < |ordered| && ordered[i] == a;
      assert keys[i] == x;
    }
    forall x | x in keys ensures x in FamilyKeys(addrs, f) {
      var i :| 0 <= i < |keys| && keys[i] == x;
      assert ordered[i] in ordered;
    }
    if FamilyAddrs(addrs, f) != {} {
      var a :| a in FamilyAddrs(addrs, f);
      assert Octets(a) in FamilyKeys(addrs, f);
    }
  }

  lemma RunFamily(k: Kernel, name: string, id: nat, f: Family, addrs: set<IpAddr>)
    requires k.Has?
    ensures var kernelName := KernelName(name, f);
            var msgs := [AddSet(kernelName, id, f),
                         AddElements(kernelName, OctetKeys(AscendingAddrs(FamilyAddrs(addrs, f))))];
            RunBatch(msgs, k)
              == if kernelName in k.table.sets then None
                 else Some(Has(k.table.(sets := k.table.sets[kernelName := FamilyKeys(addrs, f)])))
  {
    var kernelName := KernelName(name, f);
    var add := AddSet(kernelName, id, f);
    var elements := AddElements(kernelName, OctetKeys(AscendingAddrs(FamilyAddrs(addrs, f))));
    assert [add, elements][1..] == [elements] && [elements][1..] == [];
    KeysOfMembers(addrs, f);
    if kernelName !in k.table.sets {
      var k1 := Has(k.table.(sets := k.table.sets[kernelName := {}]));
      var k2 := Has(k.table.(sets := k.table.sets[kernelName := FamilyKeys(addrs, f)]));
      assert Process(add, k) == Some(k1);
      assert {} + FamilyKeys(addrs, f) == FamilyKeys(addrs, f);
      assert k1.table.sets[kernelName := FamilyKeys(addrs, f)] == k2.table.sets;
      assert Process(elements, k1) == Some(k2);
      assert RunBatch([elements], k1) == Some(k2);
    }
  }

  /** Running one family's messages after a plan that ran. */
  lemma RunPlanFamily(plan: Plan, kernel: KernelSets, name: string, addrs: set<IpAddr>, f: Family)
    requires RunBatch(plan.msgs, Has(EMPTY_TABLE)) == Some(Has(EMPTY_TABLE.(sets := kernel)))
    ensures RunBatch(PlanFamily(plan, name, addrs, f).msgs, Has(EMPTY_TABLE))
         == if FamilyAddrs(addrs, f) != {} && KernelName(name, f) in kernel then None
            else Some(Has(EMPTY_TABLE.(sets := KeepFamily(kernel, name, addrs, f))))
  {
    if FamilyAddrs(addrs, f) != {} {
      RunFamily(Has(EMPTY_TABLE.(sets := kernel)), name, plan.lastId + 1, f, addrs);
      var kernelName := KernelName(name, f);
      var msgs := [AddSet(kernelName, plan.lastId + 1, f),
                   AddElements(kernelName, OctetKeys(AscendingAddrs(FamilyAddrs(addrs, f))))];
      RunAppend(plan.msgs, msgs, Has(EMPTY_TABLE));
    }
  }

  lemma RunRejected(plan: Plan, name: string, addrs: set<IpAddr>, f: Family)
    requires RunBatch(plan.msgs, Has(EMPTY_TABLE)) == None
    ensures RunBatch(PlanFamily(plan, name, addrs, f).msgs, Has(EMPTY_TABLE)) == None
  {
    if FamilyAddrs(addrs, f) != {} {
      var kernelName := KernelName(name, f);
      RunAppend(plan.msgs, [AddSet(kernelName, plan.lastId + 1, f),
                            AddElements(kernelName, OctetKeys(AscendingAddrs(FamilyAddrs(addrs, f))))],
                            Has(EMPTY_TABLE));
    }
  }

  lemma {:induction false} KernelNamesOf(sets: SetTable, names: seq<string>, k: string)
    requires forall n :: n in names ==> n in sets
    ensures k in KernelSetsOf(sets, names)
       <==> exists n, f :: n in names && Occupied(sets, n, f) && k == KernelName(n, f)
  {
    if names == [] {
    } else {
      var init, last := names[..|names| - 1], names[|names| - 1];
      assert names == init + [last];
      KernelNamesOf(sets, init, k);
    }
  }

  lemma SuffixInjective(a: string, b: string)
    requires a + "_6" == b + "_6"
    ensures a == b
  {
    assert |a| == |b|;
    assert a == (a + "_6")[..|a|] && b == (b + "_6")[..|b|];
  }
}
