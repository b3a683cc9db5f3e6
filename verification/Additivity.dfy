/** What adding rules to policies does: allows only widen, drops only narrow. */
module Additivity {
  import opened Common
  import opened Address
  import opened Policy
  import opened Packets
  import opened Resolve
  import opened Emit
  import opened Compile
  import opened Kernel
  import opened Apply
  import opened EndToEnd
  import opened FlowlogLaw
  import opened Laws

  // ----- policies that gained rules -----

  /** Rules of one action are appended in one direction; if `settled`, only to policies whose
      enforcement of that direction the addition cannot switch on. */
  datatype Growth = Growth(dir: Direction, action: RuleAction, settled: bool)

  /** The policy lists its types, or already has a rule in the direction. */
  predicate EnforcementSettled(np: NetworkPolicy, dir: Direction) {
    np.policyTypes != [] || RulesOf(np, dir) != []
  }

  function SetRules(np: NetworkPolicy, dir: Direction, rules: seq<PolicyRule>): NetworkPolicy {
    if dir == Egress then np.(egress := rules) else np.(ingress := rules)
  }

  /** `b` is `a` with any number of such rules appended. */
  predicate Grown(g: Growth, a: NetworkPolicy, b: NetworkPolicy) {
    var before, after := RulesOf(a, g.dir), RulesOf(b, g.dir);
    && SetRules(b, g.dir, before) == a
    && before <= after && (forall r :: r in after[|before|..] ==> r.action == g.action)
    && (g.settled ==> a == b || EnforcementSettled(a, g.dir))
  }

  predicate ListGrown(g: Growth, a: seq<NamedPolicy>, b: seq<NamedPolicy>) {
    |a| == |b| && forall i | 0 <= i < |a| :: a[i].name == b[i].name && Grown(g, a[i].policy, b[i].policy)
  }

  predicate ReadGrown(g: Growth, a: Option<NetworkPolicy>, b: Option<NetworkPolicy>) {
    a.Some? == b.Some? && (a.Some? ==> Grown(g, a.value, b.value))
  }

  /** Any of the global policies and any of the policies on labels may have grown. */
  ghost predicate ConfigGrown(g: Growth, a: Config, b: Config) {
    && a.labelPrefix == b.labelPrefix && a.readIp == b.readIp && ListGrown(g, a.globals, b.globals)
    && forall v :: ReadGrown(g, a.readPolicy(v), b.readPolicy(v))
  }

  predicate InlineGrown(g: Growth, a: seq<Inline>, b: seq<Inline>) {
    |a| == |b| && forall i | 0 <= i < |a| ::
      a[i].carrier == b[i].carrier && a[i].name == b[i].name && Grown(g, a[i].policy, b[i].policy)
  }

  lemma {:induction false} ReadLabelsGrown(g: Growth, a: Config, b: Config, t: Target, labels: seq<(string, string)>)
    requires ConfigGrown(g, a, b)
    ensures InlineGrown(g, ReadLabels(a, t, labels), ReadLabels(b, t, labels))
  {
    hide Grown;
    if labels == [] {
    } else {
      ReadLabelsGrown(g, a, b, t, labels[..|labels| - 1]);
      assert ReadGrown(g, a.readPolicy(labels[|labels| - 1].1), b.readPolicy(labels[|labels| - 1].1));
    }
  }

  lemma {:induction false} InlineOfGrown(g: Growth, a: Config, b: Config, targets: seq<Target>)
    requires ConfigGrown(g, a, b)
    ensures InlineGrown(g, InlineOf(a, targets), InlineOf(b, targets))
  {
    hide Grown, ReadGrown;
    if targets == [] {
    } else {
      var last := targets[|targets| - 1];
      InlineOfGrown(g, a, b, targets[..|targets| - 1]);
      ReadLabelsGrown(g, a, b, last, InlinePolicies(a, last));
    }
  }

  lemma GrownSameSelector(g: Growth, a: NetworkPolicy, b: NetworkPolicy)
    requires Grown(g, a, b)
    ensures a.endpointSelector == b.endpointSelector
  {}

  lemma {:induction false} ApplicableInlineGrown(g: Growth, a: seq<Inline>, b: seq<Inline>, t: Target)
    requires InlineGrown(g, a, b)
    ensures ListGrown(g, ApplicableInline(a, t), ApplicableInline(b, t))
  {
    hide Grown;
    if a == [] {
    } else {
      var n := |a| - 1;
      ApplicableInlineGrown(g, a[..n], b[..n], t);
      GrownSameSelector(g, a[n].policy, b[n].policy);
    }
  }

  lemma {:induction false} ApplicableGlobalsGrown(g: Growth, a: seq<NamedPolicy>, b: seq<NamedPolicy>, t: Target)
    requires ListGrown(g, a, b)
    ensures ListGrown(g, ApplicableGlobals(a, t), ApplicableGlobals(b, t))
  {
    hide Grown;
    if a == [] {
    } else {
      var n := |a| - 1;
      ApplicableGlobalsGrown(g, a[..n], b[..n], t);
      GrownSameSelector(g, a[n].policy, b[n].policy);
    }
  }

  /** The policies that apply to a container pair up, before and after. */
  lemma PoliciesGrown(g: Growth, a: Config, ia: seq<Inline>, b: Config, ib: seq<Inline>, t: Target)
    requires ConfigGrown(g, a, b) && InlineGrown(g, ia, ib)
    ensures ListGrown(g, PoliciesFor(ia, a.globals, t), PoliciesFor(ib, b.globals, t))
  {
    hide Grown, ReadGrown, ApplicableInline, ApplicableGlobals;
    ApplicableInlineGrown(g, ia, ib, t);
    ApplicableGlobalsGrown(g, a.globals, b.globals, t);
  }

  // ----- what growth does to one policy -----

  lemma GrownEnforces(g: Growth, a: NetworkPolicy, b: NetworkPolicy, d: Direction)
    requires Grown(g, a, b)
    ensures Enforces(a, d) ==> Enforces(b, d)
    ensures Enforces(b, d) && !Enforces(a, d) ==> !g.settled && RulesOf(a, d) == []
  {
    assert d != g.dir ==> RulesOf(a, d) == RulesOf(b, d);
    assert a.policyTypes == b.policyTypes;
  }

  lemma GrownCovers(
      g: Growth, a: NetworkPolicy, b: NetworkPolicy, s: Snapshot, d: Direction, action: RuleAction, addr: IpAddr,
      p: Packet)
    requires Grown(g, a, b)
    ensures SomeRuleCovers(s, RulesOf(a, d), action, addr, p) ==> SomeRuleCovers(s, RulesOf(b, d), action, addr, p)
    ensures action != g.action && SomeRuleCovers(s, RulesOf(b, d), action, addr, p) ==>
      SomeRuleCovers(s, RulesOf(a, d), action, addr, p)
  {
    hide RuleCovers;
    if d == g.dir {
      var before, after := RulesOf(a, d), RulesOf(b, d);
      assert after == before + after[|before|..];
    } else {
      assert RulesOf(a, d) == RulesOf(b, d);
    }
  }

  // ----- what growth does to the policies that isolate one container -----

  /** The enforcing policies among two lists that pair up. */
  lemma EnforcingBefore(g: Growth, a: seq<NamedPolicy>, b: seq<NamedPolicy>, d: Direction, np: NamedPolicy)
    returns (after: NamedPolicy)
    requires ListGrown(g, a, b) && np in OnlyEnforcing(a, d)
    ensures after in OnlyEnforcing(b, d) && Grown(g, np.policy, after.policy)
  {
    hide Grown, OnlyEnforcing, Enforces;
    InOnlyEnforcing(a, d, np);
    var k :| 0 <= k < |a| && a[k] == np;
    after := b[k];
    GrownEnforces(g, np.policy, after.policy, d);
    InOnlyEnforcing(b, d, after);
  }

  lemma EnforcingAfter(g: Growth, a: seq<NamedPolicy>, b: seq<NamedPolicy>, d: Direction, after: NamedPolicy)
    returns (np: NamedPolicy)
    requires ListGrown(g, a, b) && after in OnlyEnforcing(b, d)
    ensures Grown(g, np.policy, after.policy)
    ensures np in OnlyEnforcing(a, d) || (!g.settled && RulesOf(np.policy, d) == [])
  {
    hide Grown, OnlyEnforcing, Enforces;
    InOnlyEnforcing(b, d, after);
    var k :| 0 <= k < |b| && b[k] == after;
    np := a[k];
    GrownEnforces(g, np.policy, after.policy, d);
    InOnlyEnforcing(a, d, np);
  }

  /** Whatever rules covered before, some rule covers after. */
  lemma CoversBefore(
      g: Growth, a: seq<NamedPolicy>, b: seq<NamedPolicy>, s: Snapshot, d: Direction, action: RuleAction, addr: IpAddr,
      p: Packet)
    requires ListGrown(g, a, b)
    ensures SomePolicyCovers(s, OnlyEnforcing(a, d), d, action, addr, p) ==>
            SomePolicyCovers(s, OnlyEnforcing(b, d), d, action, addr, p)
  {
    hide Grown, OnlyEnforcing, SomeRuleCovers;
    if SomePolicyCovers(s, OnlyEnforcing(a, d), d, action, addr, p) {
      var np :| np in OnlyEnforcing(a, d) && SomeRuleCovers(s, RulesOf(np.policy, d), action, addr, p);
      var after := EnforcingBefore(g, a, b, d, np);
      GrownCovers(g, np.policy, after.policy, s, d, action, addr, p);
    }
  }

  lemma NoRulesCoverNothing(s: Snapshot, action: RuleAction, addr: IpAddr, p: Packet)
    ensures !SomeRuleCovers(s, [], action, addr, p)
  {}

  /** A rule of the other action than the ones added covered before, if it covers after. */
  lemma CoversAfter(
      g: Growth, a: seq<NamedPolicy>, b: seq<NamedPolicy>, s: Snapshot, d: Direction, action: RuleAction, addr: IpAddr,
      p: Packet)
    requires ListGrown(g, a, b) && action != g.action
    ensures SomePolicyCovers(s, OnlyEnforcing(b, d), d, action, addr, p) ==>
            SomePolicyCovers(s, OnlyEnforcing(a, d), d, action, addr, p)
  {
    hide Grown, OnlyEnforcing, SomeRuleCovers;
    if SomePolicyCovers(s, OnlyEnforcing(b, d), d, action, addr, p) {
      var after :| after in OnlyEnforcing(b, d) && SomeRuleCovers(s, RulesOf(after.policy, d), action, addr, p);
      var np := EnforcingAfter(g, a, b, d, after);
      GrownCovers(g, np.policy, after.policy, s, d, action, addr, p);
      NoRulesCoverNothing(s, action, addr, p);
    }
  }

  lemma StaysIsolated(g: Growth, a: seq<NamedPolicy>, b: seq<NamedPolicy>, d: Direction)
    requires ListGrown(g, a, b)
    ensures OnlyEnforcing(a, d) != [] ==> OnlyEnforcing(b, d) != []
    ensures g.settled && OnlyEnforcing(b, d) != [] ==> OnlyEnforcing(a, d) != []
  {
    hide Grown, OnlyEnforcing;
    if OnlyEnforcing(a, d) != [] { var after := EnforcingBefore(g, a, b, d, OnlyEnforcing(a, d)[0]); }
    if OnlyEnforcing(b, d) != [] { var np := EnforcingAfter(g, a, b, d, OnlyEnforcing(b, d)[0]); }
  }

  lemma DropNarrows(
      g: Growth, a: Config, ia: seq<Inline>, b: Config, ib: seq<Inline>, s: Snapshot, t: Target, d: Direction,
      p: Packet)
    requires ConfigGrown(g, a, b) && InlineGrown(g, ia, ib) && g.action.Drop?
    ensures Narrower(a, s, ia, b, s, ib, t, d, p)
  {
    hide Grown, ReadGrown, OnlyEnforcing, PoliciesFor, SomePolicyCovers;
    PoliciesGrown(g, a, ia, b, ib, t);
    var pa, pb := PoliciesFor(ia, a.globals, t), PoliciesFor(ib, b.globals, t);
    StaysIsolated(g, pa, pb, d);
    CoversBefore(g, pa, pb, s, d, RuleAction.Drop, PeerAddr(p, d), p);
    CoversAfter(g, pa, pb, s, d, Allow, PeerAddr(p, d), p);
    NothingCovers(s, d, Allow, PeerAddr(p, d), p);
  }

  lemma NothingCovers(s: Snapshot, d: Direction, action: RuleAction, addr: IpAddr, p: Packet)
    ensures !SomePolicyCovers(s, [], d, action, addr, p)
  {}

  lemma AllowWidens(
      g: Growth, a: Config, ia: seq<Inline>, b: Config, ib: seq<Inline>, s: Snapshot, t: Target, d: Direction,
      p: Packet)
    requires ConfigGrown(g, a, b) && InlineGrown(g, ia, ib) && g.action.Allow? && g.settled
    ensures Narrower(b, s, ib, a, s, ia, t, d, p)
  {
    hide Grown, ReadGrown, OnlyEnforcing, PoliciesFor, SomePolicyCovers;
    PoliciesGrown(g, a, ia, b, ib, t);
    var pa, pb := PoliciesFor(ia, a.globals, t), PoliciesFor(ib, b.globals, t);
    StaysIsolated(g, pa, pb, d);
    CoversAfter(g, pa, pb, s, d, RuleAction.Drop, PeerAddr(p, d), p);
    CoversBefore(g, pa, pb, s, d, Allow, PeerAddr(p, d), p);
  }

  lemma NarrowerClears(a: Config, b: Config, targets: seq<Target>, d: Direction, p: Packet)
    requires a.readIp == b.readIp && Clears(b, targets, d, p)
    requires forall t :: t in targets ==>
      Narrower(a, SnapshotOf(a, targets), InlineOf(a, targets), b, SnapshotOf(a, targets), InlineOf(b, targets), t, d,
               p)
    ensures Clears(a, targets, d, p)
  {
    hide Narrower, InlineOf;
    NarrowerOwner(a, SnapshotOf(a, targets), InlineOf(a, targets), b, SnapshotOf(a, targets), InlineOf(b, targets),
                  targets, d, p);
  }

  /** Deny wins: adding drop rules anywhere only ever removes accepted packets. */
  lemma AddingDropNarrows(g: Growth, a: Config, b: Config, targets: seq<Target>, p: Packet)
    requires ConfigGrown(g, a, b) && g.action.Drop?
    ensures Allowed(b, targets, p) ==> Allowed(a, targets, p)
  {
    hide ConfigGrown, InlineGrown, Narrower, InlineOf, Clears;
    InlineOfGrown(g, a, b, targets);
    SameReader(g, a, b);
    forall t, d {
      DropNarrows(g, a, InlineOf(a, targets), b, InlineOf(b, targets), SnapshotOf(a, targets), t, d, p);
    }
    forall d: Direction ensures Clears(b, targets, d, p) ==> Clears(a, targets, d, p) {
      if Clears(b, targets, d, p) { NarrowerClears(a, b, targets, d, p); }
    }
  }

  lemma SameReader(g: Growth, a: Config, b: Config)
    requires ConfigGrown(g, a, b)
    ensures a.readIp == b.readIp
  {}

  /** Additivity: allow rules added to policies whose enforcement they cannot switch on only add accepted packets. */
  lemma AddingAllowWidens(g: Growth, a: Config, b: Config, targets: seq<Target>, p: Packet)
    requires ConfigGrown(g, a, b) && g.action.Allow? && g.settled
    ensures Allowed(a, targets, p) ==> Allowed(b, targets, p)
  {
    hide ConfigGrown, InlineGrown, Narrower, InlineOf, Clears;
    InlineOfGrown(g, a, b, targets);
    SameReader(g, a, b);
    forall t, d {
      AllowWidens(g, a, InlineOf(a, targets), b, InlineOf(b, targets), SnapshotOf(b, targets), t, d, p);
    }
    forall d: Direction ensures Clears(a, targets, d, p) ==> Clears(b, targets, d, p) {
      if Clears(a, targets, d, p) { NarrowerClears(b, a, targets, d, p); }
    }
  }

  /** Both laws hold of the programmed tables: on every packet that flow logging cannot hide, the table
      of the policies with more drops accepts less, and with more settled allows, more. */
  lemma GrownTables(g: Growth, a: Config, b: Config, targets: seq<Target>, ga: Option<u16>, gb: Option<u16>, p: Packet)
    requires ConfigGrown(g, a, b) && SingleFamily(p)
    requires (a.flowlog && ga.Some?) || (b.flowlog && gb.Some?) ==> Tracked(p)
    requires !Clash(Compiled(a, targets).sets) && !Clash(Compiled(b, targets).sets)
    ensures g.action.Drop? && Accepts(Programmed(b, targets, gb), p) ==> Accepts(Programmed(a, targets, ga), p)
    ensures g.action.Allow? && g.settled && Accepts(Programmed(a, targets, ga), p)
         ==> Accepts(Programmed(b, targets, gb), p)
  {
    hide Accepts, Programmed, Commit, Allowed, Compiled, Clash, ConfigGrown;
    TableEnforcesPolicies(a, targets, ga, NoTable, p);
    TableEnforcesPolicies(b, targets, gb, NoTable, p);
    ApplyCompiled(a, targets, ga, NoTable);
    ApplyCompiled(b, targets, gb, NoTable);
    if g.action.Drop? {
      AddingDropNarrows(g, a, b, targets, p);
    } else if g.settled {
      AddingAllowWidens(g, a, b, targets, p);
    }
  }

  // ----- where additivity stops -----

  function AddRule(np: NetworkPolicy, dir: Direction, rule: PolicyRule): NetworkPolicy {
    SetRules(np, dir, RulesOf(np, dir) + [rule])
  }

  /** The configuration with a rule added to its first global policy. */
  function WithRule(cfg: Config, dir: Direction, rule: PolicyRule): Config
    requires cfg.globals != []
  {
    var g := cfg.globals[0];
    cfg.(globals := cfg.globals[0 := NamedPolicy(g.name, AddRule(g.policy, dir, rule))])
  }

  lemma GrownItself(g: Growth, np: NetworkPolicy)
    ensures Grown(g, np, np)
  {
    assert RulesOf(np, g.dir)[|RulesOf(np, g.dir)|..] == [];
  }

  lemma GrownByOne(g: Growth, np: NetworkPolicy, rule: PolicyRule)
    requires rule.action == g.action && (g.settled ==> EnforcementSettled(np, g.dir))
    ensures Grown(g, np, AddRule(np, g.dir, rule))
  {
    var before := RulesOf(np, g.dir);
    assert (before + [rule])[|before|..] == [rule];
  }

  /** That is one way to grow. */
  lemma WithRuleGrows(cfg: Config, dir: Direction, rule: PolicyRule)
    requires cfg.globals != []
    ensures ConfigGrown(Growth(dir, rule.action, false), cfg, WithRule(cfg, dir, rule))
    ensures EnforcementSettled(cfg.globals[0].policy, dir) ==>
      ConfigGrown(Growth(dir, rule.action, true), cfg, WithRule(cfg, dir, rule))
  {
    forall settled: bool | settled ==> EnforcementSettled(cfg.globals[0].policy, dir)
      ensures ConfigGrown(Growth(dir, rule.action, settled), cfg, WithRule(cfg, dir, rule))
    {
      hide Grown, AddRule, EnforcementSettled;
      var g := Growth(dir, rule.action, settled);
      forall np: NetworkPolicy ensures Grown(g, np, np) { GrownItself(g, np); }
      GrownByOne(g, cfg.globals[0].policy, rule);
    }
  }

  lemma SingleOwner(cfg: Config, inline: seq<Inline>, t: Target, d: Direction, a: IpAddr)
    ensures Owner(cfg, inline, [t], d, a)
         == if a in TargetIps(t) && Enforcing(cfg, inline, t, d) != [] then Some(t) else None
  {
    assert [t][..0] == [];
    assert Owner(cfg, inline, [], d, a) == None;
  }

  /** No peer of the rule stands for the address. */
  predicate ReachesNobody(s: Snapshot, rule: PolicyRule, a: IpAddr) {
    rule.peers != [] && forall q :: q in rule.peers ==> !PeerSelects(s, q, a)
  }

  /** Suppose only this policy could isolate `t`, and it lists no types and no rules in the direction. */
  predicate OnlyPolicy(cfg: Config, np: NamedPolicy, t: Target) {
    cfg.globals == [np] && GlobalApplies(np, t) && InlineOf(cfg, [t]) == []
  }

  lemma UnrestrictedBefore(cfg: Config, np: NamedPolicy, dir: Direction, t: Target, p: Packet)
    requires OnlyPolicy(cfg, np, t) && !EnforcementSettled(np.policy, dir)
    requires PeerAddr(p, dir) !in TargetIps(t)
    ensures Allowed(cfg, [t], p)
  {
    if Enforcing(cfg, [], t, dir) != [] {
      InEnforcing(cfg, [], t, dir, Enforcing(cfg, [], t, dir)[0]);
    }
    SingleOwner(cfg, [], t, dir, LocalAddr(p, dir));
    var other := if dir == Egress then Ingress else Egress;
    SingleOwner(cfg, [], t, other, LocalAddr(p, other));
  }

  lemma OnlyChangedEnforces(cfg: Config, np: NamedPolicy, dir: Direction, rule: PolicyRule, t: Target)
    requires OnlyPolicy(cfg, np, t) && !EnforcementSettled(np.policy, dir)
    ensures var policies := Enforcing(WithRule(cfg, dir, rule), [], t, dir);
            policies != [] && forall h :: h in policies ==> RulesOf(h.policy, dir) == [rule]
  {
    var after := WithRule(cfg, dir, rule);
    var changed := after.globals[0];
    assert after.globals == [changed] && changed in after.globals;
    InEnforcing(after, [], t, dir, changed);
    forall h | h in Enforcing(after, [], t, dir) ensures RulesOf(h.policy, dir) == [rule] {
      InEnforcing(after, [], t, dir, h);
    }
  }

  lemma UnreachedNotPermitted(s: Snapshot, policies: seq<NamedPolicy>, dir: Direction, rule: PolicyRule, p: Packet)
    requires forall h :: h in policies ==> RulesOf(h.policy, dir) == [rule]
    requires ReachesNobody(s, rule, PeerAddr(p, dir))
    ensures !Permits(s, policies, dir, p)
  {}

  lemma IsolatedAfter(cfg: Config, np: NamedPolicy, dir: Direction, rule: PolicyRule, t: Target, p: Packet)
    requires OnlyPolicy(cfg, np, t) && !EnforcementSettled(np.policy, dir) && !ReplyTraffic(p)
    requires LocalAddr(p, dir) in TargetIps(t) && ReachesNobody(SnapshotOf(cfg, [t]), rule, PeerAddr(p, dir))
    ensures !Allowed(WithRule(cfg, dir, rule), [t], p)
  {
    var after := WithRule(cfg, dir, rule);
    InlineSame(cfg, after, [t]);
    OnlyChangedEnforces(cfg, np, dir, rule, t);
    SingleOwner(after, [], t, dir, LocalAddr(p, dir));
    assert SnapshotOf(after, [t]) == SnapshotOf(cfg, [t]);
    UnreachedNotPermitted(SnapshotOf(cfg, [t]), Enforcing(after, [], t, dir), dir, rule, p);
  }

  function AbsentRule(): PolicyRule {
    PolicyRule([Peer(Some("absent"), None, None, [], None)], [], Allow, None)
  }

  lemma AbsentReachesNobody(s: Snapshot, t: Target, a: IpAddr)
    requires s.targets == [t] && t.name != "absent"
    ensures ReachesNobody(s, AbsentRule(), a)
  {}

  lemma OneAddress(name: string, labels: Labels, a: IpAddr)
    ensures TargetIps(Target(name, labels, map["net" := [a]])) == {a}
  {
    var t := Target(name, labels, map["net" := [a]]);
    assert "net" in t.networks && a in t.networks["net"];
  }

  lemma AbsentRuleDenies(cfg: Config, np: NamedPolicy, dir: Direction, t: Target, p: Packet)
    requires cfg.globals == [np] && cfg.readPolicy == NO_POLICIES && GlobalApplies(np, t)
    requires !EnforcementSettled(np.policy, dir) && t.name != "absent" && !ReplyTraffic(p)
    requires LocalAddr(p, dir) in TargetIps(t) && PeerAddr(p, dir) !in TargetIps(t)
    ensures Allowed(cfg, [t], p) && !Allowed(WithRule(cfg, dir, AbsentRule()), [t], p)
  {
    hide TargetIps, Allowed, ReachesNobody, GlobalApplies, EnforcementSettled, WithRule;
    NoLabelPolicies(cfg, [t]);
    UnrestrictedBefore(cfg, np, dir, t, p);
    AbsentReachesNobody(SnapshotOf(cfg, [t]), t, PeerAddr(p, dir));
    IsolatedAfter(cfg, np, dir, AbsentRule(), t, p);
  }

  /** The condition is exact: a policy with no types and no rules in a direction does not isolate, and
      for every such policy there is a container, a packet and an allow rule whose addition denies it. */
  lemma AddingAllowCanDeny(np: NamedPolicy, dir: Direction)
    returns (cfg: Config, t: Target, rule: PolicyRule, p: Packet)
    requires !EnforcementSettled(np.policy, dir)
    ensures cfg.globals == [np] && rule.action.Allow?
         && ConfigGrown(Growth(dir, Allow, false), cfg, WithRule(cfg, dir, rule))
    ensures Allowed(cfg, [t], p) && !Allowed(WithRule(cfg, dir, rule), [t], p)
  {
    hide TargetIps, Allowed, ConfigGrown, WithRule, EnforcementSettled;
    cfg := Config("suho", [np], false, NO_READER, NO_POLICIES);
    var here, there := V4([10, 0, 0, 2]), V4([10, 0, 0, 9]);
    var labels := if np.policy.endpointSelector.Some? then np.policy.endpointSelector.value else map[];
    t := Target("app", labels, map["net" := [here]]);
    rule := AbsentRule();
    WithRuleGrows(cfg, dir, rule);
    p := if dir == Egress then Packet(here, there, 6, 80, New, []) else Packet(there, here, 6, 80, New, []);
    OneAddress("app", labels, here);
    AbsentRuleDenies(cfg, np, dir, t, p);
  }
}
