/** Flow logging only adds log prefixes, and never changes a verdict on tracked traffic. */
module FlowlogLaw {
  import opened Common
  import opened Address
  import opened Policy
  import opened Packets
  import opened RulesetIR
  import opened Resolve
  import opened Emit
  import opened Compile
  import opened Kernel
  import opened Apply
  import opened SetNames
  import opened EndToEnd

  function Unlogged(r: Rule): Rule {
    r.(logPrefix := None)
  }

  function UnloggedAll(rules: seq<Rule>): (out: seq<Rule>)
    ensures |out| == |rules|
  {
    seq(|rules|, i requires 0 <= i < |rules| => Unlogged(rules[i]))
  }

  predicate SameButLogs(a: Rules, b: Rules) {
    a.sets == b.sets && UnloggedAll(a.egress) == UnloggedAll(b.egress)
      && UnloggedAll(a.ingress) == UnloggedAll(b.ingress)
  }

  lemma UnloggedAppend(a: seq<Rule>, b: seq<Rule>)
    ensures UnloggedAll(a + b) == UnloggedAll(a) + UnloggedAll(b)
  {}

  function WithLog(job: Job, on: bool): Job {
    job.(flowlog := on)
  }

  lemma RuleOutLogs(job: Job, on: bool, policy: string, rule: PolicyRule, sets: SetTable)
    ensures var (a, b) := (RuleOut(job, policy, rule, sets), RuleOut(WithLog(job, on), policy, rule, sets));
            a.0 == b.0 && UnloggedAll(a.1) == UnloggedAll(b.1)
  {}

  lemma {:induction false} RulesOutLogs(
      job: Job, on: bool, action: RuleAction, policy: string, rules: seq<PolicyRule>, sets: SetTable)
    ensures var (a, b) := (RulesOut(job, action, policy, rules, sets),
                           RulesOut(WithLog(job, on), action, policy, rules, sets));
            a.0 == b.0 && UnloggedAll(a.1) == UnloggedAll(b.1)
  {
    if rules == [] {
    } else {
      var init, last := rules[..|rules| - 1], rules[|rules| - 1];
      RulesOutLogs(job, on, action, policy, init, sets);
      var a, b := RulesOut(job, action, policy, init, sets), RulesOut(WithLog(job, on), action, policy, init, sets);
      RuleOutLogs(job, on, policy, last, a.0);
      UnloggedAppend(a.1, RuleOut(job, policy, last, a.0).1);
      UnloggedAppend(b.1, RuleOut(WithLog(job, on), policy, last, b.0).1);
    }
  }

  lemma {:induction false} PassOutLogs(job: Job, on: bool, action: RuleAction, policies: seq<NamedPolicy>,
      sets: SetTable)
    ensures var (a, b) := (PassOut(job, action, policies, sets), PassOut(WithLog(job, on), action, policies, sets));
            a.0 == b.0 && UnloggedAll(a.1) == UnloggedAll(b.1)
  {
    if policies == [] {
    } else {
      var init, last := policies[..|policies| - 1], policies[|policies| - 1];
      PassOutLogs(job, on, action, init, sets);
      var a, b := PassOut(job, action, init, sets), PassOut(WithLog(job, on), action, init, sets);
      var rules := RulesOf(last.policy, job.dir);
      RulesOutLogs(job, on, action, last.name, rules, a.0);
      UnloggedAppend(a.1, RulesOut(job, action, last.name, rules, a.0).1);
      UnloggedAppend(b.1, RulesOut(WithLog(job, on), action, last.name, rules, b.0).1);
    }
  }

  lemma BlockOutLogs(job: Job, on: bool, policies: seq<NamedPolicy>, sets: SetTable)
    ensures var (a, b) := (BlockOut(job, policies, sets), BlockOut(WithLog(job, on), policies, sets));
            a.0 == b.0 && UnloggedAll(a.1) == UnloggedAll(b.1)
  {
    var other := WithLog(job, on);
    PassOutLogs(job, on, RuleAction.Drop, policies, sets);
    var (sets1, drops) := PassOut(job, RuleAction.Drop, policies, sets);
    PassOutLogs(job, on, Allow, policies, sets1);
    var (sets2, allows) := PassOut(job, Allow, policies, sets1);
    var drops', allows' := PassOut(other, RuleAction.Drop, policies, sets).1, PassOut(other, Allow, policies, sets1).1;
    UnloggedAppend(drops, allows);
    UnloggedAppend(drops', allows');
    UnloggedAppend(drops + allows, [DefaultDeny(job)]);
    UnloggedAppend(drops' + allows', [DefaultDeny(other)]);
    assert UnloggedAll([DefaultDeny(job)]) == [Unlogged(DefaultDeny(job))] == [Unlogged(DefaultDeny(other))]
        == UnloggedAll([DefaultDeny(other)]);
  }

  function WithFlowlog(cfg: Config, on: bool): Config {
    cfg.(flowlog := on)
  }

  lemma CompileDirLogs(cfg: Config, on: bool, s: Snapshot, inline: seq<Inline>, t: Target, dir: Direction, a: Rules,
      b: Rules)
    requires SameButLogs(a, b)
    ensures SameButLogs(CompileDir(cfg, s, inline, t, dir, a), CompileDir(WithFlowlog(cfg, on), s, inline, t, dir, b))
  {
    var policies := Enforcing(cfg, inline, t, dir);
    if policies != [] {
      var job := Job(s, t, dir, cfg.flowlog);
      BlockOutLogs(job, on, policies, a.sets);
      var x, y := BlockOut(job, policies, a.sets).1, BlockOut(WithLog(job, on), policies, a.sets).1;
      UnloggedAppend(ChainOf(a, dir), x);
      UnloggedAppend(ChainOf(b, dir), y);
    }
  }

  lemma {:induction false} CompileTargetsLogs(cfg: Config, on: bool, s: Snapshot, inline: seq<Inline>,
      done: seq<Target>)
    ensures SameButLogs(CompileTargets(cfg, s, inline, done), CompileTargets(WithFlowlog(cfg, on), s, inline, done))
  {
    if done == [] {
    } else {
      var other := WithFlowlog(cfg, on);
      var t := done[|done| - 1];
      var init := done[..|done| - 1];
      var a, b := CompileTargets(cfg, s, inline, init), CompileTargets(other, s, inline, init);
      CompileTargetsLogs(cfg, on, s, inline, done[..|done| - 1]);
      CompileDirLogs(cfg, on, s, inline, t, Egress, a, b);
      CompileDirLogs(cfg, on, s, inline, t, Ingress, CompileDir(cfg, s, inline, t, Egress, a),
                     CompileDir(other, s, inline, t, Egress, b));
    }
  }

  lemma {:induction false} ReadLabelsSame(a: Config, b: Config, t: Target, labels: seq<(string, string)>)
    requires a.readPolicy == b.readPolicy
    ensures ReadLabels(a, t, labels) == ReadLabels(b, t, labels)
  {
    if labels == [] {
    } else {
      ReadLabelsSame(a, b, t, labels[..|labels| - 1]);
    }
  }

  /** Label policies depend on the label prefix and the policy reader alone. */
  lemma {:induction false} InlineSame(a: Config, b: Config, targets: seq<Target>)
    requires a.readPolicy == b.readPolicy && a.labelPrefix == b.labelPrefix
    ensures InlineOf(a, targets) == InlineOf(b, targets)
  {
    if targets == [] {
    } else {
      var t := targets[|targets| - 1];
      InlineSame(a, b, targets[..|targets| - 1]);
      ReadLabelsSame(a, b, t, InlinePolicies(a, t));
    }
  }

  /** Logging on or off, the compiled rulesets differ only in log prefixes. */
  lemma CompiledSameButLogs(cfg: Config, on: bool, targets: seq<Target>)
    ensures SameButLogs(Compiled(cfg, targets), Compiled(WithFlowlog(cfg, on), targets))
  {
    InlineSame(cfg, WithFlowlog(cfg, on), targets);
    CompileTargetsLogs(cfg, on, SnapshotOf(cfg, targets), InlineOf(cfg, targets), targets);
  }

  // ----- what logging does to verdicts -----

  /** Verdicts depend on the flow-log setting only by whether the packet is hidden. */
  lemma {:induction false} FirstVerdictSame(
      cfg: Config, on: bool, s: Snapshot, inline: seq<Inline>, targets: seq<Target>, dir: Direction, p: Packet,
      hidden: bool)
    ensures FirstVerdict(cfg, s, inline, targets, dir, p, hidden)
         == FirstVerdict(WithFlowlog(cfg, on), s, inline, targets, dir, p, hidden)
  {
    hide BlockVerdict;
    if targets == [] {
    } else {
      FirstVerdictSame(cfg, on, s, inline, targets[..|targets| - 1], dir, p, hidden);
    }
  }

  lemma DirectionVerdictSame(cfg: Config, on: bool, targets: seq<Target>, dir: Direction, p: Packet, logging: bool,
      logging': bool)
    requires Hidden(cfg.flowlog, p, logging) == Hidden(on, p, logging')
    ensures DirectionVerdict(cfg, targets, dir, p, logging)
         == DirectionVerdict(WithFlowlog(cfg, on), targets, dir, p, logging')
  {
    hide FirstVerdict, Hidden;
    InlineSame(cfg, WithFlowlog(cfg, on), targets);
    FirstVerdictSame(cfg, on, SnapshotOf(cfg, targets), InlineOf(cfg, targets), targets, dir, p,
                     Hidden(cfg.flowlog, p, logging));
  }

  lemma SameSets(cfg: Config, on: bool, targets: seq<Target>)
    ensures Compiled(cfg, targets).sets == Compiled(WithFlowlog(cfg, on), targets).sets
  {
    hide Compiled;
    CompiledSameButLogs(cfg, on, targets);
  }

  /** Whatever the logging mode and group on either side, the programmed tables agree on reply traffic
      and on every packet that neither side's logging hides: all tracked packets among them. */
  lemma FlowlogTransparent(cfg: Config, on: bool, targets: seq<Target>, group: Option<u16>, group': Option<u16>,
      p: Packet)
    requires SingleFamily(p) && !Clash(Compiled(cfg, targets).sets)
    requires Tracked(p) || Hidden(cfg.flowlog, p, group.Some?) == Hidden(on, p, group'.Some?)
    ensures Accepts(Programmed(cfg, targets, group), p)
         <==> Accepts(Programmed(WithFlowlog(cfg, on), targets, group'), p)
  {
    hide Accepts, Programmed, DirectionVerdict, Clash, Compiled;
    SameSets(cfg, on, targets);
    TableVerdictExactly(cfg, targets, group, p);
    TableVerdictExactly(WithFlowlog(cfg, on), targets, group', p);
    if !ReplyTraffic(p) {
      DirectionVerdictSame(cfg, on, targets, Egress, p, group.Some?, group'.Some?);
      DirectionVerdictSame(cfg, on, targets, Ingress, p, group.Some?, group'.Some?);
    }
  }

  // ----- packets that logging hides -----

  /** The verdict on a hidden packet implies how the same policies would see it unhidden. */
  predicate Weaker(hidden: Option<Verdict>, plain: Option<Verdict>) {
    && (hidden.Some? ==> plain.Some?)
    && (plain.Some? && (hidden.None? || hidden.value.Drop?) ==> plain.value.Drop?)
  }

  lemma HiddenBlock(s: Snapshot, policies: seq<NamedPolicy>, dir: Direction, p: Packet)
    ensures Weaker(BlockVerdict(s, policies, dir, p, true), BlockVerdict(s, policies, dir, p, false))
  {
    hide RuleCovers;
    if SomePolicyActs(s, policies, dir, RuleAction.Drop, p, true) {
      var np :| np in policies && SomeRuleActs(s, RulesOf(np.policy, dir), RuleAction.Drop, PeerAddr(p, dir), p, true);
      assert SomeRuleActs(s, RulesOf(np.policy, dir), RuleAction.Drop, PeerAddr(p, dir), p, false);
    }
    ActsWhenCovers(s, policies, dir, Allow, p, true);
    ActsWhenCovers(s, policies, dir, Allow, p, false);
  }

  lemma {:induction false} HiddenWeaker(
      cfg: Config, s: Snapshot, inline: seq<Inline>, targets: seq<Target>, dir: Direction, p: Packet)
    ensures Weaker(FirstVerdict(cfg, s, inline, targets, dir, p, true),
                   FirstVerdict(cfg, s, inline, targets, dir, p, false))
  {
    hide BlockVerdict, Enforcing, TargetIps;
    if targets == [] {
    } else {
      var init, t := targets[..|targets| - 1], targets[|targets| - 1];
      HiddenWeaker(cfg, s, inline, init, dir, p);
      HiddenBlock(s, Enforcing(cfg, inline, t, dir), dir, p);
    }
  }

  /** With logging on, an INVALID or UNTRACKED packet is dropped exactly where the first container of its
      address that has a `log: false` drop or an allow covering it has such a drop: `PassesBoth` says
      it does not happen in either direction. What the policies allow still passes, and logging
      changes the verdict exactly when the packet passes although the policies do not allow it. */
  lemma HiddenVerdictExactly(cfg: Config, targets: seq<Target>, group: u16, other: Option<u16>, p: Packet)
    requires SingleFamily(p) && !Tracked(p) && cfg.flowlog && !Clash(Compiled(cfg, targets).sets)
    ensures var on := Accepts(Programmed(cfg, targets, Some(group)), p);
            var off := Accepts(Programmed(WithFlowlog(cfg, false), targets, other), p);
            && (on <==> PassesBoth(cfg, targets, p, true))
            && (off <==> Allowed(cfg, targets, p))
            && (off ==> on)
            && ((on <==> off) <==> (PassesBoth(cfg, targets, p, true) ==> Allowed(cfg, targets, p)))
  {
    hide Accepts, Programmed, Clash, Compiled, FirstVerdict, Permits, InlineOf;
    var off := WithFlowlog(cfg, false);
    SameSets(cfg, false, targets);
    TableVerdictExactly(cfg, targets, Some(group), p);
    TableVerdictExactly(off, targets, other, p);
    forall dir: Direction
      ensures DirectionVerdict(off, targets, dir, p, other.Some?) != Some(Verdict.Drop)
           <==> Clears(cfg, targets, dir, p)
      ensures Clears(cfg, targets, dir, p) ==> DirectionVerdict(cfg, targets, dir, p, true) != Some(Verdict.Drop)
    {
      var s, inline := SnapshotOf(cfg, targets), InlineOf(cfg, targets);
      DirectionVerdictSame(cfg, false, targets, dir, p, false, other.Some?);
      FirstVerdictIsOwners(cfg, s, inline, targets, dir, p);
      HiddenWeaker(cfg, s, inline, targets, dir, p);
    }
  }

  function DenyAllEgress(flowlog: bool): Config {
    Config("suho", [NamedPolicy("deny", NetworkPolicy(None, [Egress], [], []))], flowlog, NO_READER, NO_POLICIES)
  }

  function Lonely(): Target {
    Target("app", map[], map["net" := [V4([10, 0, 0, 2])]])
  }

  lemma LonelyAddress()
    ensures TargetIps(Lonely()) == {V4([10, 0, 0, 2])}
  {
    var t, a := Lonely(), V4([10, 0, 0, 2]);
    assert "net" in t.networks && a in t.networks["net"];
  }

  lemma LonelyIsSafe(cfg: Config)
    ensures !Clash(Compiled(cfg, [Lonely()]).sets)
  {
    hide Compiled, Clash;
    forall six, four ensures !ClashPair([Lonely()], six, four) {
      assert !HasFamily([Lonely()], six, Inet6);
    }
    SafeNetworks(cfg, [Lonely()]);
  }

  /** Only the catch-all of one container speaks in the egress direction, and nothing in the other. */
  lemma DenyAllVerdict(cfg: Config, targets: seq<Target>, dir: Direction, p: Packet, hidden: bool)
    requires cfg == DenyAllEgress(cfg.flowlog) && targets == [Lonely()] && p.src == V4([10, 0, 0, 2])
    ensures FirstVerdict(cfg, SnapshotOf(cfg, targets), InlineOf(cfg, targets), targets, dir, p, hidden)
         == if dir == Egress && !hidden then Some(Verdict.Drop) else None
  {
    hide TargetIps;
    LonelyAddress();
    NoLabelPolicies(cfg, targets);
    OneGlobalEnforces(cfg, cfg.globals[0], Lonely(), dir);
    assert targets[..0] == [];
    assert FirstVerdict(cfg, SnapshotOf(cfg, targets), [], [], dir, p, hidden) == None;
  }

  /** Transparency does fail there: in the INVALID and UNTRACKED states, logging on lets through a
      packet that the same policies drop with logging off. */
  lemma TransparencyFailsUntracked(ct: CtState, on: Config, off: Config, targets: seq<Target>) returns (p: Packet)
    requires ct == Invalid || ct == Untracked
    requires on == DenyAllEgress(true) && off == DenyAllEgress(false) && targets == [Lonely()]
    ensures off == WithFlowlog(on, false) && p.ct == ct && SingleFamily(p)
    ensures Accepts(Programmed(on, targets, Some(100)), p) && !Accepts(Programmed(off, targets, None), p)
  {
    hide Accepts, Programmed, Clash, Compiled, FirstVerdict, SnapshotOf, InlineOf;
    p := Packet(V4([10, 0, 0, 2]), V4([10, 0, 0, 9]), 6, 80, ct, []);
    LonelyIsSafe(on);
    LonelyIsSafe(off);
    TableVerdictExactly(on, targets, Some(100), p);
    TableVerdictExactly(off, targets, None, p);
    DenyAllVerdict(on, targets, Egress, p, true);
    DenyAllVerdict(on, targets, Ingress, p, true);
    DenyAllVerdict(off, targets, Egress, p, false);
  }
}
