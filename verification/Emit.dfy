/** Compiling one container's policies of one direction: explicit drops, then allows, then default deny.
    Egress and ingress mirror each other; `Direction` says which side is the container's. */
module Emit {
  import opened Common
  import opened Address
  import opened Policy
  import opened Packets
  import opened FlowPrefix
  import opened RulesetIR
  import opened Resolve

  /** The container being compiled, the direction, and whether drops are tagged for the flow log. */
  datatype Job = Job(snap: Snapshot, target: Target, dir: Direction, flowlog: bool)

  type Output = (SetTable, seq<Rule>)

  function RuleFor(job: Job, comment: string, m: Match, ports: seq<Port>, v: Verdict, prefix: Option<string>): Rule {
    var local := Addrs(TargetIps(job.target));
    if job.dir == Egress then Rule(comment, local, m, ports, v, prefix)
    else Rule(comment, m, local, ports, v, prefix)
  }

  function VerdictOf(action: RuleAction): Verdict {
    if action.Drop? then Verdict.Drop else Return
  }

  function CompiledRule(job: Job, policy: string, rule: PolicyRule, m: Match): Rule {
    var comment := job.target.name + "/" + policy + " " + DirText(job.dir);
    if rule.action.Drop? then
      var logged := rule.log.None? || rule.log.value;
      RuleFor(job, comment + " deny", m, rule.ports, Verdict.Drop,
              if logged then FlowlogPrefix(job.target.name, job.flowlog, job.dir) else None)
    else RuleFor(job, comment, m, rule.ports, Return, None)
  }

  function DefaultDeny(job: Job): Rule {
    RuleFor(job, job.target.name + " " + DirText(job.dir) + " default-deny", Any, [], Verdict.Drop,
            FlowlogPrefix(job.target.name, job.flowlog, job.dir))
  }

  // ----- what is emitted, as functions of the set table -----

  function ResolveAll(s: Snapshot, peers: seq<Peer>, sets: SetTable): (SetTable, seq<Match>) {
    if peers == [] then (sets, []) else
      var (sets1, ms) := ResolveAll(s, peers[..|peers| - 1], sets);
      var (sets2, m) := ResolvePeer(s, peers[|peers| - 1], sets1);
      (sets2, if m.Some? then ms + [m.value] else ms)
  }

  /** No peers listed means any address. */
  function MatchesOf(s: Snapshot, rule: PolicyRule, sets: SetTable): (SetTable, seq<Match>) {
    if rule.peers == [] then (sets, [Any]) else ResolveAll(s, rule.peers, sets)
  }

  function CompiledRules(job: Job, policy: string, rule: PolicyRule, ms: seq<Match>): (rules: seq<Rule>)
    ensures |rules| == |ms|
  {
    seq(|ms|, i requires 0 <= i < |ms| => CompiledRule(job, policy, rule, ms[i]))
  }

  function RuleOut(job: Job, policy: string, rule: PolicyRule, sets: SetTable): Output {
    var (sets1, ms) := MatchesOf(job.snap, rule, sets);
    (sets1, CompiledRules(job, policy, rule, ms))
  }

  /** The rules of one policy that carry the given action. */
  function RulesOut(job: Job, action: RuleAction, policy: string, rules: seq<PolicyRule>, sets: SetTable): Output {
    if rules == [] then (sets, []) else
      var last := rules[|rules| - 1];
      var (sets1, out1) := RulesOut(job, action, policy, rules[..|rules| - 1], sets);
      if last.action != action then (sets1, out1) else
        var (sets2, out2) := RuleOut(job, policy, last, sets1);
        (sets2, out1 + out2)
  }

  function PassOut(job: Job, action: RuleAction, policies: seq<NamedPolicy>, sets: SetTable): Output {
    if policies == [] then (sets, []) else
      var last := policies[|policies| - 1];
      var (sets1, out1) := PassOut(job, action, policies[..|policies| - 1], sets);
      var (sets2, out2) := RulesOut(job, action, last.name, RulesOf(last.policy, job.dir), sets1);
      (sets2, out1 + out2)
  }

  function BlockOut(job: Job, policies: seq<NamedPolicy>, sets: SetTable): Output {
    var (sets1, drops) := PassOut(job, RuleAction.Drop, policies, sets);
    var (sets2, allows) := PassOut(job, Allow, policies, sets1);
    (sets2, drops + allows + [DefaultDeny(job)])
  }

  function Append(rs: Rules, dir: Direction, out: Output): Rules {
    WithChain(rs.(sets := out.0), dir, ChainOf(rs, dir) + out.1)
  }

  // ----- the compiler's own loops -----

  method Matches(s: Snapshot, rule: PolicyRule, rs: Ruleset) returns (ms: seq<Match>)
    modifies rs`sets
    ensures (rs.sets, ms) == MatchesOf(s, rule, old(rs.sets))
  {
    if rule.peers == [] {
      return [Any];
    }
    ms := [];
    for i := 0 to |rule.peers|
      invariant (rs.sets, ms) == ResolveAll(s, rule.peers[..i], old(rs.sets))
    {
      assert rule.peers[..i + 1][..i] == rule.peers[..i];
      var m := Resolve.Resolve(s, rule.peers[i], rs);
      if m.Some? {
        ms := ms + [m.value];
      }
    }
    assert rule.peers[..|rule.peers|] == rule.peers;
  }

  method EmitRule(job: Job, policy: string, rule: PolicyRule, rs: Ruleset)
    modifies rs
    ensures rs.Value() == Append(old(rs.Value()), job.dir, RuleOut(job, policy, rule, old(rs.sets)))
  {
    var ms := Matches(job.snap, rule, rs);
    label resolved:
    for i := 0 to |ms|
      invariant rs.Value()
           == Append(old(rs.Value()), job.dir, (old@resolved(rs.sets), CompiledRules(job, policy, rule, ms)[..i]))
    {
      rs.Push(job.dir, CompiledRule(job, policy, rule, ms[i]));
      assert CompiledRules(job, policy, rule, ms)[..i + 1]
          == CompiledRules(job, policy, rule, ms)[..i] + [CompiledRule(job, policy, rule, ms[i])];
    }
    assert CompiledRules(job, policy, rule, ms)[..|ms|] == CompiledRules(job, policy, rule, ms);
  }

  lemma AppendTwice(rs: Rules, dir: Direction, a: Output, b: Output)
    ensures Append(Append(rs, dir, a), dir, b) == Append(rs, dir, (b.0, a.1 + b.1))
    ensures Append(rs, dir, a).sets == a.0
  {}

  lemma AppendNothing(rs: Rules, dir: Direction)
    ensures Append(rs, dir, (rs.sets, [])) == rs
  {}

  method EmitRules(job: Job, action: RuleAction, policy: string, rules: seq<PolicyRule>, rs: Ruleset)
    modifies rs
    ensures rs.Value() == Append(old(rs.Value()), job.dir, RulesOut(job, action, policy, rules, old(rs.sets)))
  {
    AppendNothing(rs.Value(), job.dir);
    for k := 0 to |rules|
      invariant rs.Value() == Append(old(rs.Value()), job.dir, RulesOut(job, action, policy, rules[..k], old(rs.sets)))
    {
      assert rules[..k + 1][..k] == rules[..k];
      if rules[k].action != action {
        continue;
      }
      ghost var done := RulesOut(job, action, policy, rules[..k], old(rs.sets));
      AppendTwice(old(rs.Value()), job.dir, done, RuleOut(job, policy, rules[k], done.0));
      EmitRule(job, policy, rules[k], rs);
    }
    assert rules[..|rules|] == rules;
  }

  method EmitPass(job: Job, action: RuleAction, policies: seq<NamedPolicy>, rs: Ruleset)
    modifies rs
    ensures rs.Value() == Append(old(rs.Value()), job.dir, PassOut(job, action, policies, old(rs.sets)))
  {
    AppendNothing(rs.Value(), job.dir);
    for i := 0 to |policies|
      invariant rs.Value() == Append(old(rs.Value()), job.dir, PassOut(job, action, policies[..i], old(rs.sets)))
    {
      assert policies[..i + 1][..i] == policies[..i];
      var rules := RulesOf(policies[i].policy, job.dir);
      ghost var done := PassOut(job, action, policies[..i], old(rs.sets));
      AppendTwice(old(rs.Value()), job.dir, done, RulesOut(job, action, policies[i].name, rules, done.0));
      EmitRules(job, action, policies[i].name, rules, rs);
    }
    assert policies[..|policies|] == policies;
  }

  method EmitBlock(job: Job, policies: seq<NamedPolicy>, rs: Ruleset)
    modifies rs
    ensures rs.Value() == Append(old(rs.Value()), job.dir, BlockOut(job, policies, old(rs.sets)))
  {
    ghost var before := rs.Value();
    ghost var drops := PassOut(job, RuleAction.Drop, policies, rs.sets);
    ghost var allows := PassOut(job, Allow, policies, drops.0);
    AppendTwice(before, job.dir, drops, allows);
    AppendTwice(before, job.dir, (allows.0, drops.1 + allows.1), (allows.0, [DefaultDeny(job)]));
    EmitPass(job, RuleAction.Drop, policies, rs);
    EmitPass(job, Allow, policies, rs);
    rs.Push(job.dir, DefaultDeny(job));
  }

  // ----- what a policy rule means -----

  /** The rule covers traffic with this peer address and these ports. */
  predicate RuleCovers(s: Snapshot, rule: PolicyRule, a: IpAddr, p: Packet) {
    && (rule.peers == [] || exists q :: q in rule.peers && PeerSelects(s, q, a))
    && PortsAdmit(rule.ports, p)
  }

  predicate SomeRuleCovers(s: Snapshot, rules: seq<PolicyRule>, action: RuleAction, a: IpAddr, p: Packet) {
    exists rule :: rule in rules && rule.action == action && RuleCovers(s, rule, a, p)
  }

  predicate SomePolicyCovers(
      s: Snapshot, policies: seq<NamedPolicy>, dir: Direction, action: RuleAction, a: IpAddr, p: Packet) {
    exists np :: np in policies && SomeRuleCovers(s, RulesOf(np.policy, dir), action, a, p)
  }

  /** Deny wins, and what nothing allows is denied. */
  predicate Permits(s: Snapshot, policies: seq<NamedPolicy>, dir: Direction, p: Packet) {
    && !SomePolicyCovers(s, policies, dir, RuleAction.Drop, PeerAddr(p, dir), p)
    && SomePolicyCovers(s, policies, dir, Allow, PeerAddr(p, dir), p)
  }

  // ----- the emitted rules mean what the policy rules mean -----

  predicate SomeFires(rules: seq<Rule>, sets: SetTable, p: Packet, logging: bool) {
    exists r :: r in rules && Fires(r, sets, p, logging)
  }

  /** With flow logging on and an NFLOG group, the `ct state new` guard hides every state but NEW
      from the logged drops. */
  predicate Hidden(flowlog: bool, p: Packet, logging: bool) {
    flowlog && logging && p.ct != New
  }

  /** The compiled form of the rule can fire: a logged drop cannot on a hidden packet. */
  predicate Live(rule: PolicyRule, hidden: bool) {
    hidden && rule.action.Drop? ==> rule.log == Some(false)
  }

  predicate SomeRuleActs(s: Snapshot, rules: seq<PolicyRule>, action: RuleAction, a: IpAddr, p: Packet, hidden: bool) {
    exists rule :: rule in rules && rule.action == action && RuleCovers(s, rule, a, p) && Live(rule, hidden)
  }

  predicate SomePolicyActs(
      s: Snapshot, policies: seq<NamedPolicy>, dir: Direction, action: RuleAction, p: Packet, hidden: bool) {
    exists np :: np in policies && SomeRuleActs(s, RulesOf(np.policy, dir), action, PeerAddr(p, dir), p, hidden)
  }

  /** What one container's policies say about a packet of its own: the catch-all drop is logged too,
      so a hidden packet that no rule takes passes on. */
  function BlockVerdict(s: Snapshot, policies: seq<NamedPolicy>, dir: Direction, p: Packet,
      hidden: bool): Option<Verdict> {
    if SomePolicyActs(s, policies, dir, RuleAction.Drop, p, hidden) then Some(Verdict.Drop)
    else if SomePolicyActs(s, policies, dir, Allow, p, hidden) then Some(Return)
    else if hidden then None
    else Some(Verdict.Drop)
  }

  /** On a packet that is not hidden, every rule that covers it acts; an allow always does. */
  lemma ActsWhenCovers(
      s: Snapshot, policies: seq<NamedPolicy>, dir: Direction, action: RuleAction, p: Packet, hidden: bool)
    requires !hidden || action.Allow?
    ensures SomePolicyActs(s, policies, dir, action, p, hidden)
       <==> SomePolicyCovers(s, policies, dir, action, PeerAddr(p, dir), p)
  {
    hide RuleCovers;
    if SomePolicyCovers(s, policies, dir, action, PeerAddr(p, dir), p) {
      var np :| np in policies && SomeRuleCovers(s, RulesOf(np.policy, dir), action, PeerAddr(p, dir), p);
      assert SomeRuleActs(s, RulesOf(np.policy, dir), action, PeerAddr(p, dir), p, hidden);
    }
    if SomePolicyActs(s, policies, dir, action, p, hidden) {
      var np :| np in policies && SomeRuleActs(s, RulesOf(np.policy, dir), action, PeerAddr(p, dir), p, hidden);
      assert SomeRuleCovers(s, RulesOf(np.policy, dir), action, PeerAddr(p, dir), p);
    }
  }

  lemma BlockVerdictVisible(s: Snapshot, policies: seq<NamedPolicy>, dir: Direction, p: Packet)
    ensures BlockVerdict(s, policies, dir, p, false)
         == if Permits(s, policies, dir, p) then Some(Return) else Some(Verdict.Drop)
  {
    hide SomePolicyActs, SomePolicyCovers;
    ActsWhenCovers(s, policies, dir, RuleAction.Drop, p, false);
    ActsWhenCovers(s, policies, dir, Allow, p, false);
  }

  /** What every emitted rule of one pass looks like: the container's addresses on its own side,
      one verdict, only registered sets, only valid blocks. */
  predicate Shaped(job: Job, v: Verdict, r: Rule, sets: SetTable) {
    && r.verdict == v
    && (if job.dir == Egress then r.saddr else r.daddr) == Addrs(TargetIps(job.target))
    && ClosedRule(r, sets)
    && WellFormed(r)
  }

  predicate AllShaped(job: Job, v: Verdict, rules: seq<Rule>, sets: SetTable) {
    forall r :: r in rules ==> Shaped(job, v, r, sets)
  }

  lemma ExtendsTransitive(a: SetTable, b: SetTable, c: SetTable)
    requires Extends(a, b) && Extends(b, c)
    ensures Extends(a, c)
  {}

  lemma ShapedGrows(job: Job, v: Verdict, rules: seq<Rule>, small: SetTable, big: SetTable)
    requires AllShaped(job, v, rules, small) && Extends(small, big)
    ensures AllShaped(job, v, rules, big)
  {}

  predicate SomeDenotes(ms: seq<Match>, sets: SetTable, a: IpAddr) {
    exists m :: m in ms && Denotes(m, sets, a)
  }

  lemma {:induction false} ResolveAllMeaning(s: Snapshot, peers: seq<Peer>, sets: SetTable, final: SetTable, a: IpAddr)
    requires Indexed(s) && Extends(ResolveAll(s, peers, sets).0, final)
    ensures var (sets1, ms) := ResolveAll(s, peers, sets);
            && Extends(sets, sets1)
            && (SomeDenotes(ms, final, a) <==> exists q :: q in peers && PeerSelects(s, q, a))
            && (forall m :: m in ms ==> WellFormedMatch(m) && Closed(m, sets1))
  {
    if peers == [] {
    } else {
      hide ResolvePeer, Denotes, PeerSelects, WellFormedMatch;
      var init, last := peers[..|peers| - 1], peers[|peers| - 1];
      assert peers == init + [last];
      var (sets1, ms) := ResolveAll(s, init, sets);
      ResolveExtends(s, last, sets1);
      var (sets2, m) := ResolvePeer(s, last, sets1);
      ExtendsTransitive(sets1, sets2, final);
      ResolveAllMeaning(s, init, sets, final, a);
      ResolveMeaning(s, last, sets1, final, a);
      ExtendsTransitive(sets, sets1, sets2);
      if m.Some? {
        assert SomeDenotes(ms + [m.value], final, a) <==> SomeDenotes(ms, final, a) || Denotes(m.value, final, a);
      }
    }
  }

  lemma MatchesMeaning(s: Snapshot, rule: PolicyRule, sets: SetTable, final: SetTable, a: IpAddr)
    requires Indexed(s) && Extends(MatchesOf(s, rule, sets).0, final)
    ensures var (sets1, ms) := MatchesOf(s, rule, sets);
            && Extends(sets, sets1)
            && (SomeDenotes(ms, final, a) <==> rule.peers == [] || exists q :: q in rule.peers && PeerSelects(s, q, a))
            && (forall m :: m in ms ==> WellFormedMatch(m) && Closed(m, sets1))
  {
    if rule.peers == [] {
      assert Any in [Any] && Denotes(Any, final, a);
    } else {
      ResolveAllMeaning(s, rule.peers, sets, final, a);
    }
  }

  /** The packet is the container's own, and its other end and ports are as stated. */
  predicate Taken(job: Job, p: Packet, peerHolds: bool) {
    LocalAddr(p, job.dir) in TargetIps(job.target) && peerHolds
  }

  lemma CompiledRuleFires(job: Job, policy: string, rule: PolicyRule, m: Match, sets: SetTable, p: Packet,
      logging: bool)
    ensures Fires(CompiledRule(job, policy, rule, m), sets, p, logging)
       <==> Taken(job, p, Denotes(m, sets, PeerAddr(p, job.dir)) && PortsAdmit(rule.ports, p))
            && Live(rule, Hidden(job.flowlog, p, logging))
  {}

  lemma CompiledRulesFire(
      job: Job, policy: string, rule: PolicyRule, ms: seq<Match>, sets: SetTable, p: Packet, logging: bool)
    ensures SomeFires(CompiledRules(job, policy, rule, ms), sets, p, logging)
       <==> Taken(job, p, SomeDenotes(ms, sets, PeerAddr(p, job.dir)) && PortsAdmit(rule.ports, p))
            && Live(rule, Hidden(job.flowlog, p, logging))
  {
    hide Fires, Live, Hidden, Denotes, PortsAdmit, CompiledRule;
    var rules := CompiledRules(job, policy, rule, ms);
    forall i | 0 <= i < |ms|
      ensures rules[i] in rules && ms[i] in ms
      ensures Fires(rules[i], sets, p, logging)
         <==> Taken(job, p, Denotes(ms[i], sets, PeerAddr(p, job.dir)) && PortsAdmit(rule.ports, p))
              && Live(rule, Hidden(job.flowlog, p, logging))
    {
      CompiledRuleFires(job, policy, rule, ms[i], sets, p, logging);
    }
  }

  lemma RuleOutMeaning(
      job: Job, policy: string, rule: PolicyRule, sets: SetTable, final: SetTable, p: Packet, logging: bool)
    requires Indexed(job.snap) && Extends(RuleOut(job, policy, rule, sets).0, final)
    ensures var (sets1, out) := RuleOut(job, policy, rule, sets);
            && Extends(sets, sets1)
            && AllShaped(job, VerdictOf(rule.action), out, sets1)
            && (SomeFires(out, final, p, logging)
                <==> Taken(job, p, RuleCovers(job.snap, rule, PeerAddr(p, job.dir), p))
                     && Live(rule, Hidden(job.flowlog, p, logging)))
  {
    hide Live, Hidden, SomeFires;
    MatchesMeaning(job.snap, rule, sets, final, PeerAddr(p, job.dir));
    CompiledRulesFire(job, policy, rule, MatchesOf(job.snap, rule, sets).1, final, p, logging);
  }

  lemma SomeFiresAppend(a: seq<Rule>, b: seq<Rule>, sets: SetTable, p: Packet, logging: bool)
    ensures SomeFires(a + b, sets, p, logging) <==> SomeFires(a, sets, p, logging) || SomeFires(b, sets, p, logging)
  {
    if SomeFires(a, sets, p, logging) {
      var r :| r in a && Fires(r, sets, p, logging);
      assert r in a + b;
    }
    if SomeFires(b, sets, p, logging) {
      var r :| r in b && Fires(r, sets, p, logging);
      assert r in a + b;
    }
  }

  lemma SomeRuleActsAppend(
      s: Snapshot, rules: seq<PolicyRule>, last: PolicyRule, action: RuleAction, a: IpAddr, p: Packet, hidden: bool)
    ensures SomeRuleActs(s, rules + [last], action, a, p, hidden)
       <==> SomeRuleActs(s, rules, action, a, p, hidden)
            || (last.action == action && RuleCovers(s, last, a, p) && Live(last, hidden))
  {
    hide RuleCovers, Live;
    assert last in rules + [last];
  }

  lemma {:induction false} RulesOutMeaning(
      job: Job, action: RuleAction, policy: string, rules: seq<PolicyRule>,
      sets: SetTable, final: SetTable, p: Packet, logging: bool)
    requires Indexed(job.snap)
    requires Extends(RulesOut(job, action, policy, rules, sets).0, final)
    ensures var (sets1, out) := RulesOut(job, action, policy, rules, sets);
            && Extends(sets, sets1)
            && AllShaped(job, VerdictOf(action), out, sets1)
            && (SomeFires(out, final, p, logging)
                <==> Taken(job, p, SomeRuleActs(job.snap, rules, action, PeerAddr(p, job.dir), p,
                                                Hidden(job.flowlog, p, logging))))
  {
    hide Hidden, Live, RuleCovers, RuleOut;
    if rules == [] {
    } else {
      var init, last := rules[..|rules| - 1], rules[|rules| - 1];
      assert rules == init + [last];
      SomeRuleActsAppend(job.snap, init, last, action, PeerAddr(p, job.dir), p, Hidden(job.flowlog, p, logging));
      var (sets1, out1) := RulesOut(job, action, policy, init, sets);
      if last.action == action {
        var (sets2, out2) := RuleOut(job, policy, last, sets1);
        RuleOutMeaning(job, policy, last, sets1, final, p, logging);
        ExtendsTransitive(sets1, sets2, final);
        RulesOutMeaning(job, action, policy, init, sets, final, p, logging);
        ShapedGrows(job, VerdictOf(action), out1, sets1, sets2);
        SomeFiresAppend(out1, out2, final, p, logging);
      } else {
        RulesOutMeaning(job, action, policy, init, sets, final, p, logging);
      }
    }
  }

  lemma SomePolicyActsAppend(
      s: Snapshot, policies: seq<NamedPolicy>, last: NamedPolicy, dir: Direction, action: RuleAction, p: Packet,
      hidden: bool)
    ensures SomePolicyActs(s, policies + [last], dir, action, p, hidden)
       <==> SomePolicyActs(s, policies, dir, action, p, hidden)
            || SomeRuleActs(s, RulesOf(last.policy, dir), action, PeerAddr(p, dir), p, hidden)
  {
    hide SomeRuleActs;
    assert last in policies + [last];
  }

  lemma {:induction false} PassOutMeaning(
      job: Job, action: RuleAction, policies: seq<NamedPolicy>,
      sets: SetTable, final: SetTable, p: Packet, logging: bool)
    requires Indexed(job.snap)
    requires Extends(PassOut(job, action, policies, sets).0, final)
    ensures var (sets1, out) := PassOut(job, action, policies, sets);
            && Extends(sets, sets1)
            && AllShaped(job, VerdictOf(action), out, sets1)
            && (SomeFires(out, final, p, logging)
                <==> Taken(job, p, SomePolicyActs(job.snap, policies, job.dir, action, p,
                                                  Hidden(job.flowlog, p, logging))))
  {
    hide Hidden, SomeRuleActs, RulesOut;
    if policies == [] {
    } else {
      var init, last := policies[..|policies| - 1], policies[|policies| - 1];
      assert policies == init + [last];
      SomePolicyActsAppend(job.snap, init, last, job.dir, action, p, Hidden(job.flowlog, p, logging));
      var rules := RulesOf(last.policy, job.dir);
      var (sets1, out1) := PassOut(job, action, init, sets);
      var (sets2, out2) := RulesOut(job, action, last.name, rules, sets1);
      RulesOutMeaning(job, action, last.name, rules, sets1, final, p, logging);
      ExtendsTransitive(sets1, sets2, final);
      PassOutMeaning(job, action, init, sets, final, p, logging);
      ShapedGrows(job, VerdictOf(action), out1, sets1, sets2);
      SomeFiresAppend(out1, out2, final, p, logging);
    }
  }

  lemma DenyShaped(job: Job, sets: SetTable)
    ensures Shaped(job, Verdict.Drop, DefaultDeny(job), sets)
  {
    hide TargetIps, FlowlogPrefix;
  }

  /** Shape of a container's block: drops, then returns, then one catch-all drop for its addresses. */
  lemma BlockShape(job: Job, policies: seq<NamedPolicy>, sets: SetTable)
    requires Indexed(job.snap)
    ensures var (sets1, out) := BlockOut(job, policies, sets);
            && Extends(sets, sets1)
            && exists drops, allows ::
                 && out == drops + allows + [DefaultDeny(job)]
                 && AllShaped(job, Verdict.Drop, drops, sets1)
                 && AllShaped(job, Return, allows, sets1)
                 && Shaped(job, Verdict.Drop, DefaultDeny(job), sets1)
  {
    hide PassOut, SomePolicyActs, Hidden, Fires, WellFormed, Taken;
    var p := Packet(V4([0, 0, 0, 0]), V4([0, 0, 0, 0]), 0, 0, New, []);
    DenyShaped(job, BlockOut(job, policies, sets).0);
    hide DefaultDeny;
    var (sets1, drops) := PassOut(job, RuleAction.Drop, policies, sets);
    var (sets2, allows) := PassOut(job, Allow, policies, sets1);
    PassOutMeaning(job, RuleAction.Drop, policies, sets, sets1, p, false);
    PassOutMeaning(job, Allow, policies, sets1, sets2, p, false);
    ShapedGrows(job, Verdict.Drop, drops, sets1, sets2);
    assert BlockOut(job, policies, sets).1 == drops + allows + [DefaultDeny(job)];
  }

  /** A block's rules refer to registered sets only, and to valid blocks only. */
  lemma BlockSound(job: Job, policies: seq<NamedPolicy>, sets: SetTable)
    requires Indexed(job.snap)
    ensures var (sets1, out) := BlockOut(job, policies, sets);
            Extends(sets, sets1) && forall r :: r in out ==> WellFormed(r) && ClosedRule(r, sets1)
  {
    hide WellFormed, ClosedRule, DefaultDeny, PassOut;
    BlockShape(job, policies, sets);
  }

  lemma DefaultDenyFires(job: Job, sets: SetTable, p: Packet, logging: bool)
    ensures Fires(DefaultDeny(job), sets, p, logging) <==> Taken(job, p, true) && !Hidden(job.flowlog, p, logging)
  {}

  /** A container's block decides exactly the packets of its own addresses, by its policies. */
  lemma BlockMeaning(job: Job, policies: seq<NamedPolicy>, sets: SetTable, final: SetTable, p: Packet, logging: bool)
    requires Indexed(job.snap)
    requires Extends(BlockOut(job, policies, sets).0, final)
    ensures Extends(sets, BlockOut(job, policies, sets).0)
    ensures FirstMatch(BlockOut(job, policies, sets).1, final, p, logging)
         == if LocalAddr(p, job.dir) !in TargetIps(job.target) then None
            else BlockVerdict(job.snap, policies, job.dir, p, Hidden(job.flowlog, p, logging))
  {
    hide PassOut, DefaultDeny, Fires, Hidden, SomePolicyActs;
    var (sets1, drops) := PassOut(job, RuleAction.Drop, policies, sets);
    var (sets2, allows) := PassOut(job, Allow, policies, sets1);
    PassOutMeaning(job, Allow, policies, sets1, final, p, logging);
    ExtendsTransitive(sets1, sets2, final);
    PassOutMeaning(job, RuleAction.Drop, policies, sets, final, p, logging);
    ExtendsTransitive(sets, sets1, sets2);
    UniformVerdict(drops, Verdict.Drop, final, p, logging);
    UniformVerdict(allows, Return, final, p, logging);
    var deny := [DefaultDeny(job)];
    assert DefaultDeny(job).verdict.Drop? by { DenyDrops(job); }
    UniformVerdict(deny, Verdict.Drop, final, p, logging);
    assert DefaultDeny(job) in deny;
    DefaultDenyFires(job, final, p, logging);
    FirstMatchAppend(drops, allows, final, p, logging);
    FirstMatchAppend(drops + allows, deny, final, p, logging);
  }

  lemma DenyDrops(job: Job)
    ensures DefaultDeny(job).verdict.Drop?
  {}
}
