/** Every drop is tagged for the flow log with the container whose policies decided it, unless a
    drop rule opts out. */
module DropTags {
  import opened Common
  import opened Policy
  import opened Packets
  import opened FlowPrefix
  import opened RulesetIR
  import opened Resolve
  import opened Emit
  import opened Compile

  /** An explicit drop rule of the direction says `log: false`. */
  predicate OptsOut(policies: seq<NamedPolicy>, dir: Direction) {
    exists np :: np in policies && SomeUnlogged(RulesOf(np.policy, dir))
  }

  predicate SomeUnlogged(rules: seq<PolicyRule>) {
    exists rule :: rule in rules && rule.action.Drop? && rule.log == Some(false)
  }

  /** A return is never tagged; a drop carries the container's prefix, or none if the policies opt out. */
  predicate Tagged(t: Target, dir: Direction, flowlog: bool, optOut: bool, r: Rule) {
    && (if dir == Egress then r.saddr else r.daddr) == Addrs(TargetIps(t))
    && (r.verdict.Return? ==> r.logPrefix.None?)
    && (r.verdict.Drop? ==>
          r.logPrefix == FlowlogPrefix(t.name, flowlog, dir) || (optOut && r.logPrefix.None?))
  }

  predicate AllTagged(t: Target, dir: Direction, flowlog: bool, optOut: bool, rules: seq<Rule>) {
    forall r :: r in rules ==> Tagged(t, dir, flowlog, optOut, r)
  }

  lemma RuleTagged(job: Job, optOut: bool, policy: string, rule: PolicyRule, sets: SetTable)
    requires rule.action.Drop? && rule.log == Some(false) ==> optOut
    ensures AllTagged(job.target, job.dir, job.flowlog, optOut, RuleOut(job, policy, rule, sets).1)
  {
    hide MatchesOf, FlowlogPrefix, TargetIps;
  }

  lemma {:induction false} RulesTagged(
      job: Job, optOut: bool, action: RuleAction, policy: string, rules: seq<PolicyRule>, sets: SetTable)
    requires SomeUnlogged(rules) ==> optOut
    ensures AllTagged(job.target, job.dir, job.flowlog, optOut, RulesOut(job, action, policy, rules, sets).1)
  {
    hide Tagged, RuleOut;
    if rules == [] {
    } else {
      var last := rules[|rules| - 1];
      RulesTagged(job, optOut, action, policy, rules[..|rules| - 1], sets);
      RuleTagged(job, optOut, policy, last, RulesOut(job, action, policy, rules[..|rules| - 1], sets).0);
    }
  }

  lemma {:induction false} PassTagged(
      job: Job, optOut: bool, action: RuleAction, policies: seq<NamedPolicy>, sets: SetTable)
    requires OptsOut(policies, job.dir) ==> optOut
    ensures AllTagged(job.target, job.dir, job.flowlog, optOut, PassOut(job, action, policies, sets).1)
  {
    hide Tagged, RulesOut, SomeUnlogged;
    if policies == [] {
    } else {
      var init, last := policies[..|policies| - 1], policies[|policies| - 1];
      PassTagged(job, optOut, action, init, sets);
      RulesTagged(job, optOut, action, last.name, RulesOf(last.policy, job.dir), PassOut(job, action, init, sets).0);
    }
  }

  lemma BlockTagged(job: Job, policies: seq<NamedPolicy>, sets: SetTable)
    ensures AllTagged(job.target, job.dir, job.flowlog, OptsOut(policies, job.dir), BlockOut(job, policies, sets).1)
  {
    hide PassOut, OptsOut, FlowlogPrefix, TargetIps;
    var optOut := OptsOut(policies, job.dir);
    PassTagged(job, optOut, RuleAction.Drop, policies, sets);
    PassTagged(job, optOut, Allow, policies, PassOut(job, RuleAction.Drop, policies, sets).0);
  }

  // ----- the rule that decides a packet -----

  /** The first rule of a chain that fires. */
  function Deciding(rules: seq<Rule>, sets: SetTable, p: Packet, logging: bool): Option<Rule> {
    if rules == [] then None
    else if Fires(rules[0], sets, p, logging) then Some(rules[0])
    else Deciding(rules[1..], sets, p, logging)
  }

  lemma {:induction false} DecidingFires(rules: seq<Rule>, sets: SetTable, p: Packet, logging: bool)
    ensures var d := Deciding(rules, sets, p, logging);
            && FirstMatch(rules, sets, p, logging) == (if d.Some? then Some(d.value.verdict) else None)
            && (d.Some? ==> d.value in rules && Fires(d.value, sets, p, logging))
  {
    hide Fires;
    if rules == [] {
    } else {
      DecidingFires(rules[1..], sets, p, logging);
    }
  }

  lemma {:induction false} DecidingAppend(a: seq<Rule>, b: seq<Rule>, sets: SetTable, p: Packet, logging: bool)
    ensures Deciding(a + b, sets, p, logging)
         == if Deciding(a, sets, p, logging).Some? then Deciding(a, sets, p, logging) else Deciding(b, sets, p, logging)
  {
    hide Fires;
    if a == [] {
      assert a + b == b;
    } else {
      assert (a + b)[1..] == a[1..] + b;
      DecidingAppend(a[1..], b, sets, p, logging);
    }
  }

  /** The rule is the owner's, and tagged with its name. */
  predicate DecidedByOwner(
      cfg: Config, inline: seq<Inline>, targets: seq<Target>, dir: Direction, p: Packet, r: Rule) {
    var owner := Owner(cfg, inline, targets, dir, LocalAddr(p, dir));
    owner.Some? && Tagged(owner.value, dir, cfg.flowlog, OptsOut(Enforcing(cfg, inline, owner.value, dir), dir), r)
  }

  /** One more container: what it appends in the direction is its block, if it is isolated and has addresses. */
  lemma AppendedBlock(cfg: Config, s: Snapshot, inline: seq<Inline>, t: Target, dir: Direction, rs: Rules)
    returns (block: seq<Rule>)
    ensures ChainOf(CompileTarget(cfg, s, inline, t, rs), dir) == ChainOf(rs, dir) + block
    ensures block != [] ==> Enforcing(cfg, inline, t, dir) != []
    ensures AllTagged(t, dir, cfg.flowlog, OptsOut(Enforcing(cfg, inline, t, dir), dir), block)
  {
    hide BlockOut, OptsOut, Tagged, Enforcing;
    var policies := Enforcing(cfg, inline, t, dir);
    if TargetIps(t) == {} || policies == [] {
      block := [];
    } else {
      var before := if dir == Egress then rs else CompileDir(cfg, s, inline, t, Egress, rs);
      var job := Job(s, t, dir, cfg.flowlog);
      block := BlockOut(job, policies, before.sets).1;
      BlockTagged(job, policies, before.sets);
    }
  }

  lemma TaggedFiresHere(t: Target, dir: Direction, flowlog: bool, optOut: bool, r: Rule, sets: SetTable, p: Packet,
      logging: bool)
    requires Tagged(t, dir, flowlog, optOut, r) && Fires(r, sets, p, logging)
    ensures LocalAddr(p, dir) in TargetIps(t)
  {
    hide TargetIps, FlowlogPrefix;
  }

  lemma {:induction false} ChainTagged(
      cfg: Config, s: Snapshot, inline: seq<Inline>, done: seq<Target>, final: SetTable, dir: Direction, p: Packet,
      logging: bool)
    requires Indexed(s) && !Hidden(cfg.flowlog, p, logging) && Extends(CompileTargets(cfg, s, inline, done).sets, final)
    ensures var d := Deciding(ChainOf(CompileTargets(cfg, s, inline, done), dir), final, p, logging);
            d.Some? ==> DecidedByOwner(cfg, inline, done, dir, p, d.value)
  {
    hide Tagged, OptsOut, CompileTarget, Enforcing, Fires, FirstMatch;
    if done == [] {
    } else {
      var init, t := done[..|done| - 1], done[|done| - 1];
      var rs := CompileTargets(cfg, s, inline, init);
      CompileTargetMeaning(cfg, s, inline, t, rs, final, dir, p, logging);
      ExtendsTransitive(rs.sets, CompileTargets(cfg, s, inline, done).sets, final);
      ChainTagged(cfg, s, inline, init, final, dir, p, logging);
      CompileTargetsMeaning(cfg, s, inline, init, final, dir, p, logging);
      FirstVerdictIsOwners(cfg, s, inline, init, dir, p);
      DecidingFires(ChainOf(rs, dir), final, p, logging);
      var block := AppendedBlock(cfg, s, inline, t, dir, rs);
      DecidingAppend(ChainOf(rs, dir), block, final, p, logging);
      DecidingFires(block, final, p, logging);
      var d := Deciding(block, final, p, logging);
      if d.Some? {
        TaggedFiresHere(t, dir, cfg.flowlog, OptsOut(Enforcing(cfg, inline, t, dir), dir), d.value, final, p, logging);
      }
    }
  }

  /** A packet that a compiled chain drops is dropped by a rule of its first isolated owner; with flow
      logging on, that rule carries the owner's prefix unless one of the owner's policies opts out. */
  lemma DropNamesOwner(cfg: Config, targets: seq<Target>, dir: Direction, p: Packet, logging: bool)
    requires !Hidden(cfg.flowlog, p, logging) && cfg.flowlog && !Clears(cfg, targets, dir, p)
    ensures var rs, inline := Compiled(cfg, targets), InlineOf(cfg, targets);
            var owner := Owner(cfg, inline, targets, dir, LocalAddr(p, dir));
            var d := Deciding(ChainOf(rs, dir), rs.sets, p, logging);
            && owner.Some? && d.Some? && d.value.verdict.Drop?
            && (d.value.logPrefix == FlowlogPrefix(owner.value.name, true, dir)
                || (d.value.logPrefix.None? && OptsOut(Enforcing(cfg, inline, owner.value, dir), dir)))
  {
    hide OptsOut, FlowlogPrefix, CompileTargets, InlineOf, Deciding, FirstMatch, Owner, Enforcing;
    var rs := Compiled(cfg, targets);
    CompiledChainMeaning(cfg, targets, dir, p, logging);
    DecidingFires(ChainOf(rs, dir), rs.sets, p, logging);
    ChainTagged(cfg, SnapshotOf(cfg, targets), InlineOf(cfg, targets), targets, rs.sets, dir, p, logging);
  }
}
