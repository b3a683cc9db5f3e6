/** Who is isolated, read off the compiled chains. */
module Isolation {
  import opened Common
  import opened Address
  import opened Policy
  import opened Packets
  import opened FlowPrefix
  import opened RulesetIR
  import opened Resolve
  import opened Emit
  import opened Compile
  import opened EndToEnd
  import opened Documented
  import opened Agreement

  // ----- default denies -----

  /** A drop of everything between the container's own addresses and any other, under its name. */
  ghost predicate CatchesAll(r: Rule, own: Match, far: Match, t: Target, word: string) {
    && r.comment == t.name + " " + word + " default-deny"
    && r.verdict == Verdict.Drop && r.ports == [] && far == Any
    && own.Addrs? && forall a :: a in own.addrs <==> HasAddress(t, a)
  }

  ghost predicate CatchesFor(r: Rule, t: Target, dir: Direction) {
    match dir
    case Egress => CatchesAll(r, r.saddr, r.daddr, t, "egress")
    case Ingress => CatchesAll(r, r.daddr, r.saddr, t, "ingress")
  }

  ghost predicate DeniesByDefault(rs: Rules, t: Target, dir: Direction) {
    exists r :: r in (match dir case Egress => rs.egress case Ingress => rs.ingress) && CatchesFor(r, t, dir)
  }

  /** How the comment of a default deny ends, and no other rule's. */
  predicate DashDeny(comment: string) {
    |comment| >= 5 && comment[|comment| - 5..] == "-deny"
  }

  lemma Ends(head: string, tail: string)
    requires |tail| >= 5
    ensures (head + tail)[|head + tail| - 5..] == tail[|tail| - 5..]
  {}

  lemma ExplicitComment(job: Job, policy: string, rule: PolicyRule, m: Match)
    ensures !DashDeny(CompiledRule(job, policy, rule, m).comment)
  {
    hide TargetIps;
    var head := job.target.name + "/" + policy + " ";
    var text := if job.dir == Egress then "egress" else "ingress";
    if rule.action.Drop? {
      assert CompiledRule(job, policy, rule, m).comment == head + text + " deny";
      Ends(head + text, " deny");
    } else {
      assert CompiledRule(job, policy, rule, m).comment == head + text;
      Ends(head, text);
      assert text[|text| - 5..] == "gress";
    }
  }

  predicate AllExplicit(rules: seq<Rule>) {
    forall r :: r in rules ==> !DashDeny(r.comment)
  }

  lemma RuleOutExplicit(job: Job, policy: string, rule: PolicyRule, sets: SetTable)
    ensures AllExplicit(RuleOut(job, policy, rule, sets).1)
  {
    hide CompiledRule, MatchesOf, DashDeny;
    var ms := MatchesOf(job.snap, rule, sets).1;
    forall i | 0 <= i < |ms| ensures !DashDeny(CompiledRule(job, policy, rule, ms[i]).comment) {
      ExplicitComment(job, policy, rule, ms[i]);
    }
  }

  lemma {:induction false} RulesOutExplicit(
      job: Job, action: RuleAction, policy: string, rules: seq<PolicyRule>, sets: SetTable)
    ensures AllExplicit(RulesOut(job, action, policy, rules, sets).1)
  {
    hide RuleOut, DashDeny;
    if rules == [] {
    } else {
      var init, last := rules[..|rules| - 1], rules[|rules| - 1];
      RulesOutExplicit(job, action, policy, init, sets);
      RuleOutExplicit(job, policy, last, RulesOut(job, action, policy, init, sets).0);
    }
  }

  lemma {:induction false} PassOutExplicit(job: Job, action: RuleAction, policies: seq<NamedPolicy>, sets: SetTable)
    ensures AllExplicit(PassOut(job, action, policies, sets).1)
  {
    hide RulesOut, DashDeny;
    if policies == [] {
    } else {
      var init, last := policies[..|policies| - 1], policies[|policies| - 1];
      PassOutExplicit(job, action, init, sets);
      RulesOutExplicit(job, action, last.name, RulesOf(last.policy, job.dir), PassOut(job, action, init, sets).0);
    }
  }

  lemma DefaultDenyComment(job: Job)
    ensures DashDeny(DefaultDeny(job).comment)
  {
    hide TargetIps;
    var text := if job.dir == Egress then "egress" else "ingress";
    assert DefaultDeny(job).comment == (job.target.name + " " + text) + " default-deny";
    Ends(job.target.name + " " + text, " default-deny");
    assert " default-deny"[8..] == "-deny";
  }

  /** A block has one default deny, and no other rule passes for one. */
  lemma BlockDeny(job: Job, policies: seq<NamedPolicy>, sets: SetTable, r: Rule)
    ensures r in BlockOut(job, policies, sets).1 && DashDeny(r.comment) <==> r == DefaultDeny(job)
  {
    hide PassOut, DashDeny, DefaultDeny;
    PassOutExplicit(job, RuleAction.Drop, policies, sets);
    PassOutExplicit(job, Allow, policies, PassOut(job, RuleAction.Drop, policies, sets).0);
    DefaultDenyComment(job);
  }

  lemma ChainDeny(cfg: Config, s: Snapshot, inline: seq<Inline>, t: Target, rs: Rules, dir: Direction, r: Rule)
    requires DashDeny(r.comment)
    ensures r in ChainOf(CompileTarget(cfg, s, inline, t, rs), dir)
       <==> r in ChainOf(rs, dir)
            || (TargetIps(t) != {} && Enforcing(cfg, inline, t, dir) != []
                && r == DefaultDeny(Job(s, t, dir, cfg.flowlog)))
  {
    hide BlockOut, DashDeny, DefaultDeny, Enforcing, TargetIps;
    var mid := CompileDir(cfg, s, inline, t, Egress, rs);
    BlockDeny(Job(s, t, Egress, cfg.flowlog), Enforcing(cfg, inline, t, Egress), rs.sets, r);
    BlockDeny(Job(s, t, Ingress, cfg.flowlog), Enforcing(cfg, inline, t, Ingress), mid.sets, r);
  }

  lemma {:induction false} ChainsDeny(
      cfg: Config, s: Snapshot, inline: seq<Inline>, done: seq<Target>, dir: Direction, r: Rule)
    requires DashDeny(r.comment)
    ensures r in ChainOf(CompileTargets(cfg, s, inline, done), dir)
       <==> exists u :: u in done && TargetIps(u) != {} && Enforcing(cfg, inline, u, dir) != []
              && r == DefaultDeny(Job(s, u, dir, cfg.flowlog))
  {
    hide CompileTarget, DashDeny, DefaultDeny, Enforcing, TargetIps;
    if done == [] {
    } else {
      var init, last := done[..|done| - 1], done[|done| - 1];
      assert done == init + [last];
      ChainsDeny(cfg, s, inline, init, dir, r);
      ChainDeny(cfg, s, inline, last, CompileTargets(cfg, s, inline, init), dir, r);
    }
  }

  /** The same name and the same addresses. */
  ghost predicate Alike(u: Target, t: Target) {
    u.name == t.name && forall a :: HasAddress(u, a) <==> HasAddress(t, a)
  }

  lemma SameTail(a: string, b: string, tail: string)
    requires a + tail == b + tail
    ensures a == b
  {
    assert |a| == |b|;
    assert (a + tail)[..|a|] == a && (b + tail)[..|b|] == b;
  }

  lemma DenyCatches(job: Job, t: Target)
    ensures CatchesFor(DefaultDeny(job), t, job.dir) <==> Alike(job.target, t)
  {
    hide FlowlogPrefix;
    var text := if job.dir == Egress then "egress" else "ingress";
    var tail := " " + text + " default-deny";
    var r := DefaultDeny(job);
    assert r.comment == job.target.name + tail;
    assert t.name + " " + text + " default-deny" == t.name + tail;
    if r.comment == t.name + tail { SameTail(job.target.name, t.name, tail); }
    assert forall a :: a in TargetIps(job.target) <==> HasAddress(job.target, a);
  }

  lemma CatchesDashDeny(r: Rule, t: Target, dir: Direction)
    requires CatchesFor(r, t, dir)
    ensures DashDeny(r.comment)
  {
    hide HasAddress;
    var text := if dir == Egress then "egress" else "ingress";
    Ends(t.name + " " + text, " default-deny");
    assert " default-deny"[8..] == "-deny";
  }

  /** A compiled chain holds a default deny for a container exactly when a container of its name and
      addresses has an address and some policy that governs it lists the direction, or lists none
      and has a rule there. */
  lemma DefaultDenyExactly(cfg: Config, targets: seq<Target>, t: Target, dir: Direction)
    ensures DeniesByDefault(Compiled(cfg, targets), t, dir)
       <==> exists u :: u in targets && Alike(u, t) && (exists a :: HasAddress(u, a))
              && IsIsolated(cfg, targets, u, dir)
  {
    hide CatchesFor, DashDeny, DefaultDeny, Enforcing, IsIsolated, Alike, CompileTargets, InlineOf;
    var s, inline, rs := SnapshotOf(cfg, targets), InlineOf(cfg, targets), Compiled(cfg, targets);
    assert ChainOf(rs, dir) == match dir case Egress => rs.egress case Ingress => rs.ingress;
    forall u
      ensures TargetIps(u) != {} <==> exists a :: HasAddress(u, a)
      ensures Enforcing(cfg, inline, u, dir) != [] <==> IsIsolated(cfg, targets, u, dir)
      ensures CatchesFor(DefaultDeny(Job(s, u, dir, cfg.flowlog)), t, dir) <==> Alike(u, t)
    {
      SomeAddress(u);
      IsolatedExactly(cfg, targets, u, dir);
      DenyCatches(Job(s, u, dir, cfg.flowlog), t);
    }
    hide TargetIps, HasAddress;
    if r :| r in ChainOf(rs, dir) && CatchesFor(r, t, dir) {
      CatchesDashDeny(r, t, dir);
      ChainsDeny(cfg, s, inline, targets, dir, r);
    }
    if u :| u in targets && Alike(u, t) && (exists a :: HasAddress(u, a)) && IsIsolated(cfg, targets, u, dir) {
      var r := DefaultDeny(Job(s, u, dir, cfg.flowlog));
      CatchesDashDeny(r, t, dir);
      ChainsDeny(cfg, s, inline, targets, dir, r);
    }
  }

  lemma SomeAddress(t: Target)
    ensures TargetIps(t) != {} <==> exists a :: HasAddress(t, a)
  {
    if TargetIps(t) != {} {
      var a :| a in TargetIps(t);
      assert HasAddress(t, a);
    }
    if a :| HasAddress(t, a) {
      assert a in TargetIps(t);
    }
  }

  /** Docker's container names are unique: then it is the container itself that some policy isolates. */
  lemma DefaultDenyOfContainer(cfg: Config, targets: seq<Target>, t: Target, dir: Direction)
    requires t in targets && exists a :: HasAddress(t, a)
    requires forall u :: u in targets && u.name == t.name ==> u == t
    ensures DeniesByDefault(Compiled(cfg, targets), t, dir)
       <==> exists g :: Governs(cfg, targets, t, g)
              && (dir in g.policy.policyTypes
                  || (g.policy.policyTypes == []
                    && (if dir == Egress then g.policy.egress else g.policy.ingress) != []))
  {
    hide DeniesByDefault, Governs, Compiled;
    DefaultDenyExactly(cfg, targets, t, dir);
    assert Alike(t, t);
    assert forall g ::
      IsolatedBy(cfg, targets, t, dir, g)
      <==> Governs(cfg, targets, t, g)
           && (dir in g.policy.policyTypes
               || (g.policy.policyTypes == [] && (if dir == Egress then g.policy.egress else g.policy.ingress) != []));
  }

  // ----- one policy for everybody -----

  /** The configuration has this one global policy, without a selector, and no label parses. */
  ghost predicate OnePolicy(cfg: Config, g: NamedPolicy) {
    cfg.globals == [g] && g.policy.endpointSelector.None? && forall text :: cfg.readPolicy(text).None?
  }

  lemma OnePolicyIsolates(cfg: Config, targets: seq<Target>, t: Target, dir: Direction, g: NamedPolicy)
    requires OnePolicy(cfg, g)
    ensures forall h :: IsolatedBy(cfg, targets, t, dir, h) <==> h == g && Isolates(g.policy, dir)
    ensures IsIsolated(cfg, targets, t, dir) <==> Isolates(g.policy, dir)
  {
    assert forall h :: h in cfg.globals <==> h == g;
    assert forall c, h :: !Carries(cfg, c, h);
    assert IsolatedBy(cfg, targets, t, dir, g) <==> Isolates(g.policy, dir);
  }

  /** The directions that one policy makes default-deny, for each way to write its types. */
  lemma DirectionsExactly(cfg: Config, targets: seq<Target>, t: Target, g: NamedPolicy)
    requires OnePolicy(cfg, g) && t in targets && exists a :: HasAddress(t, a)
    ensures var rs, types := Compiled(cfg, targets), g.policy.policyTypes;
            && (types == [Ingress] ==> DeniesByDefault(rs, t, Ingress) && !DeniesByDefault(rs, t, Egress))
            && (types == [Egress] ==> DeniesByDefault(rs, t, Egress) && !DeniesByDefault(rs, t, Ingress))
            && (types == [Ingress, Egress] || types == [Egress, Ingress] ==>
                  DeniesByDefault(rs, t, Ingress) && DeniesByDefault(rs, t, Egress))
            && (types == [] ==>
                  && (DeniesByDefault(rs, t, Ingress) <==> g.policy.ingress != [])
                  && (DeniesByDefault(rs, t, Egress) <==> g.policy.egress != []))
  {
    hide DeniesByDefault, Compiled, IsolatedBy, HasAddress;
    forall u, dir ensures IsIsolated(cfg, targets, u, dir) <==> Isolates(g.policy, dir) {
      OnePolicyIsolates(cfg, targets, u, dir, g);
    }
    hide IsIsolated;
    DefaultDenyExactly(cfg, targets, t, Ingress);
    DefaultDenyExactly(cfg, targets, t, Egress);
    assert Alike(t, t);
  }
}
