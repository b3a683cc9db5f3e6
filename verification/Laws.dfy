/** Laws of the policies' meaning: order does not matter, and rules add up the documented way. */
module Laws {
  import opened Common
  import opened Address
  import opened Policy
  import opened Packets
  import opened Resolve
  import opened Emit
  import opened Compile
  import opened Kernel
  import opened Apply
  import opened EndToEnd

  // ----- which policies a container has -----

  lemma {:induction false} InReadLabels(cfg: Config, t: Target, labels: seq<(string, string)>, i: Inline)
    ensures i in ReadLabels(cfg, t, labels)
       <==> i.carrier == t && exists v :: (i.name, v) in labels && cfg.readPolicy(v) == Some(i.policy)
  {
    if labels == [] {
    } else {
      var init, last := labels[..|labels| - 1], labels[|labels| - 1];
      assert labels == init + [last];
      InReadLabels(cfg, t, init, i);
      assert forall v :: (i.name, v) in labels <==> (i.name, v) in init || (i.name, v) == last;
    }
  }

  lemma {:induction false} InInline(cfg: Config, targets: seq<Target>, i: Inline)
    ensures i in InlineOf(cfg, targets)
       <==> (i.carrier in targets
             && exists v :: (i.name, v) in InlinePolicies(cfg, i.carrier) && cfg.readPolicy(v) == Some(i.policy))
  {
    if targets == [] {
    } else {
      var init, last := targets[..|targets| - 1], targets[|targets| - 1];
      assert targets == init + [last];
      InInline(cfg, init, i);
      InReadLabels(cfg, last, InlinePolicies(cfg, last), i);
    }
  }

  lemma {:induction false} InApplicableInline(inline: seq<Inline>, t: Target, np: NamedPolicy)
    ensures np in ApplicableInline(inline, t)
       <==> exists i :: i in inline && InlineApplies(i, t) && np == NamedPolicy(i.name, i.policy)
  {
    if inline == [] {
    } else {
      var init, last := inline[..|inline| - 1], inline[|inline| - 1];
      assert inline == init + [last];
      InApplicableInline(init, t, np);
    }
  }

  lemma {:induction false} InApplicableGlobals(globals: seq<NamedPolicy>, t: Target, np: NamedPolicy)
    ensures np in ApplicableGlobals(globals, t) <==> np in globals && GlobalApplies(np, t)
  {
    if globals == [] {
    } else {
      var init, last := globals[..|globals| - 1], globals[|globals| - 1];
      assert globals == init + [last];
      InApplicableGlobals(init, t, np);
    }
  }

  lemma {:induction false} InOnlyEnforcing(policies: seq<NamedPolicy>, dir: Direction, np: NamedPolicy)
    ensures np in OnlyEnforcing(policies, dir) <==> np in policies && Enforces(np.policy, dir)
  {
    if policies == [] {
    } else {
      var init, last := policies[..|policies| - 1], policies[|policies| - 1];
      assert policies == init + [last];
      InOnlyEnforcing(init, dir, np);
    }
  }

  /** A policy isolates a container exactly when it enforces the direction and either sits on
      a label that applies to the container or is a global that selects it. */
  lemma InEnforcing(cfg: Config, inline: seq<Inline>, t: Target, dir: Direction, np: NamedPolicy)
    ensures np in Enforcing(cfg, inline, t, dir)
       <==> (Enforces(np.policy, dir)
             && ((exists i :: i in inline && InlineApplies(i, t) && np == NamedPolicy(i.name, i.policy))
                 || (np in cfg.globals && GlobalApplies(np, t))))
  {
    InOnlyEnforcing(PoliciesFor(inline, cfg.globals, t), dir, np);
    InApplicableInline(inline, t, np);
    InApplicableGlobals(cfg.globals, t, np);
  }

  // ----- a general comparison of two configurations -----

  /** On this container, `b` isolates wherever `a` does, and permits only where `a` isolates and permits. */
  ghost predicate Narrower(
      a: Config, sa: Snapshot, ia: seq<Inline>, b: Config, sb: Snapshot, ib: seq<Inline>, t: Target, dir: Direction,
      p: Packet)
  {
    var pa, pb := Enforcing(a, ia, t, dir), Enforcing(b, ib, t, dir);
    && (pa != [] ==> pb != [])
    && (pb != [] && Permits(sb, pb, dir, p) ==> pa != [] && Permits(sa, pa, dir, p))
  }

  lemma {:induction false} NarrowerOwner(
      a: Config, sa: Snapshot, ia: seq<Inline>, b: Config, sb: Snapshot, ib: seq<Inline>,
      targets: seq<Target>, dir: Direction, p: Packet)
    requires forall t :: t in targets ==> Narrower(a, sa, ia, b, sb, ib, t, dir, p)
    requires OwnerPermits(b, sb, ib, targets, dir, p)
    ensures OwnerPermits(a, sa, ia, targets, dir, p)
    ensures Owner(b, ib, targets, dir, LocalAddr(p, dir)).None? ==> Owner(a, ia, targets, dir, LocalAddr(p, dir)).None?
    ensures Owner(b, ib, targets, dir, LocalAddr(p, dir)).Some? ==>
      Owner(a, ia, targets, dir, LocalAddr(p, dir)) == Owner(b, ib, targets, dir, LocalAddr(p, dir))
  {
    if targets == [] {
    } else {
      var init, last := targets[..|targets| - 1], targets[|targets| - 1];
      assert targets == init + [last];
      assert Narrower(a, sa, ia, b, sb, ib, last, dir, p);
      NarrowerOwner(a, sa, ia, b, sb, ib, init, dir, p);
    }
  }

  // ----- order independence -----

  predicate SameMembers<T(==)>(a: seq<T>, b: seq<T>) {
    (forall x :: x in a ==> x in b) && (forall x :: x in b ==> x in a)
  }

  lemma SameEmpty<T>(a: seq<T>, b: seq<T>)
    requires SameMembers(a, b)
    ensures a == [] <==> b == []
  {
    if a != [] { assert a[0] in a; }
    if b != [] { assert b[0] in b; }
  }

  /** Peers and ports in any order. */
  predicate SameRule(a: PolicyRule, b: PolicyRule) {
    a.action == b.action && SameMembers(a.peers, b.peers) && SameMembers(a.ports, b.ports)
  }

  predicate RuleIn(r: PolicyRule, b: seq<PolicyRule>) {
    exists r' :: r' in b && SameRule(r, r')
  }

  predicate RulesWithin(a: seq<PolicyRule>, b: seq<PolicyRule>) {
    forall r {:trigger RuleIn(r, b)} :: r in a ==> RuleIn(r, b)
  }

  /** Rules in any order, each up to the order of its peers and ports; log settings and repeats are free. */
  predicate SamePolicy(a: NetworkPolicy, b: NetworkPolicy) {
    && a.endpointSelector == b.endpointSelector
    && SameMembers(a.policyTypes, b.policyTypes)
    && RulesWithin(a.ingress, b.ingress) && RulesWithin(b.ingress, a.ingress)
    && RulesWithin(a.egress, b.egress) && RulesWithin(b.egress, a.egress)
  }

  predicate PolicyIn(g: NamedPolicy, b: seq<NamedPolicy>) {
    exists h :: h in b && SamePolicy(g.policy, h.policy)
  }

  predicate PoliciesWithin(a: seq<NamedPolicy>, b: seq<NamedPolicy>) {
    forall g {:trigger PolicyIn(g, b)} :: g in a ==> PolicyIn(g, b)
  }

  /** The same policies on globals and labels, in any order. */
  ghost predicate SameConfig(a: Config, b: Config) {
    && a.labelPrefix == b.labelPrefix && a.readIp == b.readIp
    && PoliciesWithin(a.globals, b.globals) && PoliciesWithin(b.globals, a.globals)
    && forall v :: (a.readPolicy(v).Some? <==> b.readPolicy(v).Some?)
                && (a.readPolicy(v).Some? ==> SamePolicy(a.readPolicy(v).value, b.readPolicy(v).value))
  }

  lemma SamePolicySymmetric(a: NetworkPolicy, b: NetworkPolicy)
    requires SamePolicy(a, b)
    ensures SamePolicy(b, a)
  {}

  lemma SameConfigSymmetric(a: Config, b: Config)
    requires SameConfig(a, b)
    ensures SameConfig(b, a)
  {
    forall v | b.readPolicy(v).Some? ensures SamePolicy(b.readPolicy(v).value, a.readPolicy(v).value) {
      SamePolicySymmetric(a.readPolicy(v).value, b.readPolicy(v).value);
    }
  }

  lemma SamePeers(sa: Snapshot, sb: Snapshot, peer: Peer, addr: IpAddr)
    requires sa.readIp == sb.readIp && SameMembers(sa.targets, sb.targets)
    ensures PeerSelects(sa, peer, addr) <==> PeerSelects(sb, peer, addr)
  {}

  lemma SameCover(sa: Snapshot, sb: Snapshot, a: PolicyRule, b: PolicyRule, addr: IpAddr, p: Packet)
    requires sa.readIp == sb.readIp && SameMembers(sa.targets, sb.targets) && SameRule(a, b)
    ensures RuleCovers(sa, a, addr, p) ==> RuleCovers(sb, b, addr, p)
  {
    forall q: Peer ensures PeerSelects(sa, q, addr) <==> PeerSelects(sb, q, addr) {
      SamePeers(sa, sb, q, addr);
    }
    SameEmpty(a.peers, b.peers);
    SameEmpty(a.ports, b.ports);
  }

  lemma RuleCoversWithin(
      sa: Snapshot, sb: Snapshot, ra: seq<PolicyRule>, rb: seq<PolicyRule>, action: RuleAction, addr: IpAddr, p: Packet)
    requires sa.readIp == sb.readIp && SameMembers(sa.targets, sb.targets) && RulesWithin(ra, rb)
    ensures SomeRuleCovers(sa, ra, action, addr, p) ==> SomeRuleCovers(sb, rb, action, addr, p)
  {
    if SomeRuleCovers(sa, ra, action, addr, p) {
      var r :| r in ra && r.action == action && RuleCovers(sa, r, addr, p);
      assert RuleIn(r, rb);
      var r' :| r' in rb && SameRule(r, r');
      SameCover(sa, sb, r, r', addr, p);
    }
  }

  lemma CoversWithin(
      sa: Snapshot, sb: Snapshot, pa: seq<NamedPolicy>, pb: seq<NamedPolicy>, dir: Direction, action: RuleAction,
      addr: IpAddr, p: Packet)
    requires sa.readIp == sb.readIp && SameMembers(sa.targets, sb.targets) && PoliciesWithin(pa, pb)
    ensures SomePolicyCovers(sa, pa, dir, action, addr, p) ==> SomePolicyCovers(sb, pb, dir, action, addr, p)
  {
    if SomePolicyCovers(sa, pa, dir, action, addr, p) {
      var g :| g in pa && SomeRuleCovers(sa, RulesOf(g.policy, dir), action, addr, p);
      assert PolicyIn(g, pb);
      var h :| h in pb && SamePolicy(g.policy, h.policy);
      RuleCoversWithin(sa, sb, RulesOf(g.policy, dir), RulesOf(h.policy, dir), action, addr, p);
    }
  }

  /** Policies matched up both ways permit the same packets. */
  lemma PermitsWithin(sa: Snapshot, sb: Snapshot, pa: seq<NamedPolicy>, pb: seq<NamedPolicy>, dir: Direction, p: Packet)
    requires sa.readIp == sb.readIp && SameMembers(sa.targets, sb.targets)
    requires PoliciesWithin(pa, pb) && PoliciesWithin(pb, pa)
    ensures Permits(sb, pb, dir, p) ==> Permits(sa, pa, dir, p)
    ensures pa == [] <==> pb == []
  {
    CoversWithin(sa, sb, pa, pb, dir, RuleAction.Drop, PeerAddr(p, dir), p);
    CoversWithin(sb, sa, pb, pa, dir, Allow, PeerAddr(p, dir), p);
    if pa != [] { assert pa[0] in pa && PolicyIn(pa[0], pb); }
    if pb != [] { assert pb[0] in pb && PolicyIn(pb[0], pa); }
  }

  lemma SameEnforces(a: NetworkPolicy, b: NetworkPolicy, dir: Direction)
    requires SamePolicy(a, b)
    ensures Enforces(a, dir) ==> Enforces(b, dir)
  {
    SameEmpty(a.policyTypes, b.policyTypes);
    if RulesOf(a, dir) != [] {
      var r := RulesOf(a, dir)[0];
      assert r in RulesOf(a, dir) && RuleIn(r, RulesOf(b, dir));
    }
  }

  lemma GlobalCounterpart(
      a: Config, b: Config, ib: seq<Inline>, t: Target, dir: Direction, g: NamedPolicy) returns (h: NamedPolicy)
    requires PoliciesWithin(a.globals, b.globals) && g in a.globals && GlobalApplies(g, t) && Enforces(g.policy, dir)
    ensures h in Enforcing(b, ib, t, dir) && SamePolicy(g.policy, h.policy)
  {
    assert PolicyIn(g, b.globals);
    h :| h in b.globals && SamePolicy(g.policy, h.policy);
    SameEnforces(g.policy, h.policy, dir);
    InEnforcing(b, ib, t, dir, h);
  }

  lemma InlineCounterpart(
      a: Config, ta: seq<Target>, b: Config, tb: seq<Target>, t: Target, dir: Direction, i: Inline)
    returns (h: NamedPolicy)
    requires SameConfig(a, b) && SameMembers(ta, tb)
    requires i in InlineOf(a, ta) && InlineApplies(i, t) && Enforces(i.policy, dir)
    ensures h in Enforcing(b, InlineOf(b, tb), t, dir) && SamePolicy(i.policy, h.policy)
  {
    InInline(a, ta, i);
    var v :| (i.name, v) in InlinePolicies(a, i.carrier) && a.readPolicy(v) == Some(i.policy);
    var j := Inline(i.carrier, i.name, b.readPolicy(v).value);
    InInline(b, tb, j);
    h := NamedPolicy(j.name, j.policy);
    SameEnforces(i.policy, h.policy, dir);
    InEnforcing(b, InlineOf(b, tb), t, dir, h);
  }

  lemma EnforcingWithin(a: Config, ta: seq<Target>, b: Config, tb: seq<Target>, t: Target, dir: Direction)
    requires SameConfig(a, b) && SameMembers(ta, tb)
    ensures PoliciesWithin(Enforcing(a, InlineOf(a, ta), t, dir), Enforcing(b, InlineOf(b, tb), t, dir))
  {
    var ia := InlineOf(a, ta);
    forall g | g in Enforcing(a, ia, t, dir)
      ensures PolicyIn(g, Enforcing(b, InlineOf(b, tb), t, dir))
    {
      InEnforcing(a, ia, t, dir, g);
      if g in a.globals && GlobalApplies(g, t) {
        var h := GlobalCounterpart(a, b, InlineOf(b, tb), t, dir, g);
      } else {
        var i :| i in ia && InlineApplies(i, t) && g == NamedPolicy(i.name, i.policy);
        var h := InlineCounterpart(a, ta, b, tb, t, dir, i);
      }
    }
  }

  /** The same container has the same say under both configurations. */
  lemma SameSay(a: Config, ta: seq<Target>, b: Config, tb: seq<Target>, t: Target, dir: Direction, p: Packet)
    requires SameConfig(a, b) && SameMembers(ta, tb)
    ensures Narrower(a, SnapshotOf(a, ta), InlineOf(a, ta), b, SnapshotOf(b, tb), InlineOf(b, tb), t, dir, p)
  {
    SameConfigSymmetric(a, b);
    EnforcingWithin(a, ta, b, tb, t, dir);
    EnforcingWithin(b, tb, a, ta, t, dir);
    PermitsWithin(SnapshotOf(a, ta), SnapshotOf(b, tb),
                  Enforcing(a, InlineOf(a, ta), t, dir), Enforcing(b, InlineOf(b, tb), t, dir), dir, p);
  }

  /** Reordering policies, rules, peers or ports leaves one direction's check unchanged. */
  lemma SameClears(a: Config, b: Config, targets: seq<Target>, dir: Direction, p: Packet)
    requires SameConfig(a, b) && Clears(b, targets, dir, p)
    ensures Clears(a, targets, dir, p)
  {
    forall t | t in targets
      ensures Narrower(a, SnapshotOf(a, targets), InlineOf(a, targets), b, SnapshotOf(b, targets),
                       InlineOf(b, targets), t, dir, p)
    {
      SameSay(a, targets, b, targets, t, dir, p);
    }
    NarrowerOwner(a, SnapshotOf(a, targets), InlineOf(a, targets), b, SnapshotOf(b, targets), InlineOf(b, targets),
                  targets, dir, p);
  }

  /** The order of policies, rules, peers and ports never affects a verdict. */
  lemma PolicyOrderIrrelevant(a: Config, b: Config, targets: seq<Target>, p: Packet)
    requires SameConfig(a, b)
    ensures Allowed(a, targets, p) <==> Allowed(b, targets, p)
  {
    SameConfigSymmetric(a, b);
    forall dir: Direction ensures Clears(a, targets, dir, p) <==> Clears(b, targets, dir, p) {
      if Clears(a, targets, dir, p) { SameClears(b, a, targets, dir, p); }
      if Clears(b, targets, dir, p) { SameClears(a, b, targets, dir, p); }
    }
  }

  lemma SameConfigReflexive(a: Config)
    ensures SameConfig(a, a)
  {
    forall rules: seq<PolicyRule> ensures RulesWithin(rules, rules) {
      forall r | r in rules ensures RuleIn(r, rules) { assert SameRule(r, r); }
    }
    forall np: NetworkPolicy ensures SamePolicy(np, np) {}
    forall g | g in a.globals ensures PolicyIn(g, a.globals) {}
  }

  lemma ReorderedClears(cfg: Config, ta: seq<Target>, tb: seq<Target>, dir: Direction, p: Packet)
    requires SameMembers(ta, tb) && DisjointOwners(cfg, ta, dir) && DisjointOwners(cfg, tb, dir)
    requires Clears(cfg, ta, dir, p)
    ensures Clears(cfg, tb, dir, p)
  {
    SameConfigReflexive(cfg);
    DisjointClears(cfg, ta, dir, p);
    DisjointClears(cfg, tb, dir, p);
    forall t | t in tb && LocalAddr(p, dir) in TargetIps(t) && Isolated(cfg, tb, t, dir)
      ensures ContainerPermits(cfg, tb, t, dir, p)
    {
      SameSay(cfg, ta, cfg, tb, t, dir, p);
      SameSay(cfg, tb, cfg, ta, t, dir, p);
      assert Isolated(cfg, ta, t, dir);
    }
  }

  lemma SameDisjoint(cfg: Config, ta: seq<Target>, tb: seq<Target>, dir: Direction, p: Packet)
    requires SameMembers(ta, tb) && DisjointOwners(cfg, ta, dir)
    ensures DisjointOwners(cfg, tb, dir)
  {
    SameConfigReflexive(cfg);
    forall t: Target ensures Isolated(cfg, tb, t, dir) ==> Isolated(cfg, ta, t, dir) {
      SameSay(cfg, tb, cfg, ta, t, dir, p);
    }
  }

  lemma ReorderedDirection(cfg: Config, ta: seq<Target>, tb: seq<Target>, dir: Direction, p: Packet)
    requires SameMembers(ta, tb) && DisjointOwners(cfg, ta, dir)
    ensures Clears(cfg, ta, dir, p) <==> Clears(cfg, tb, dir, p)
  {
    SameDisjoint(cfg, ta, tb, dir, p);
    if Clears(cfg, ta, dir, p) { ReorderedClears(cfg, ta, tb, dir, p); }
    if Clears(cfg, tb, dir, p) { ReorderedClears(cfg, tb, ta, dir, p); }
  }

  /** When isolated containers have disjoint addresses, the order containers are listed in does not matter either. */
  lemma ContainerOrderIrrelevant(cfg: Config, ta: seq<Target>, tb: seq<Target>, p: Packet)
    requires SameMembers(ta, tb)
    requires DisjointOwners(cfg, ta, Egress) && DisjointOwners(cfg, ta, Ingress)
    ensures Allowed(cfg, ta, p) <==> Allowed(cfg, tb, p)
  {
    ReorderedDirection(cfg, ta, tb, Egress, p);
    ReorderedDirection(cfg, ta, tb, Ingress, p);
  }

  // ----- exactly when container order matters -----

  /** An isolated container that has the packet's address. */
  predicate Holder(cfg: Config, targets: seq<Target>, t: Target, dir: Direction, p: Packet) {
    t in targets && LocalAddr(p, dir) in TargetIps(t) && Isolated(cfg, targets, t, dir)
  }

  ghost predicate HoldersAgree(cfg: Config, targets: seq<Target>, dir: Direction, p: Packet) {
    forall t, u :: Holder(cfg, targets, t, dir, p) && Holder(cfg, targets, u, dir, p) ==>
      (ContainerPermits(cfg, targets, t, dir, p) <==> ContainerPermits(cfg, targets, u, dir, p))
  }

  /** Every permutation of the containers gives the direction's check one answer. */
  ghost predicate OrderFree(cfg: Config, targets: seq<Target>, dir: Direction, p: Packet) {
    forall tb :: multiset(tb) == multiset(targets) ==> (Clears(cfg, tb, dir, p) <==> Clears(cfg, targets, dir, p))
  }

  lemma SameHolder(cfg: Config, ta: seq<Target>, tb: seq<Target>, t: Target, dir: Direction, p: Packet)
    requires SameMembers(ta, tb)
    ensures Holder(cfg, ta, t, dir, p) <==> Holder(cfg, tb, t, dir, p)
    ensures Holder(cfg, ta, t, dir, p)
         ==> (ContainerPermits(cfg, ta, t, dir, p) <==> ContainerPermits(cfg, tb, t, dir, p))
  {
    hide Permits, Enforcing, SameConfig;
    SameConfigReflexive(cfg);
    SameSay(cfg, ta, cfg, tb, t, dir, p);
    SameSay(cfg, tb, cfg, ta, t, dir, p);
  }

  lemma ClearsByOwner(cfg: Config, targets: seq<Target>, dir: Direction, p: Packet)
    ensures var owner := Owner(cfg, InlineOf(cfg, targets), targets, dir, LocalAddr(p, dir));
            && (owner.Some? ==> Holder(cfg, targets, owner.value, dir, p))
            && (owner.None? ==> forall t :: !Holder(cfg, targets, t, dir, p))
            && (Clears(cfg, targets, dir, p) <==> owner.None? || ContainerPermits(cfg, targets, owner.value, dir, p))
  {
    hide Permits, Enforcing, Owner;
    OwnerIsCandidate(cfg, InlineOf(cfg, targets), targets, dir, LocalAddr(p, dir));
  }

  lemma {:induction false} FrontOwns(cfg: Config, inline: seq<Inline>, t: Target, rest: seq<Target>, dir: Direction,
      a: IpAddr)
    requires a in TargetIps(t) && Enforcing(cfg, inline, t, dir) != []
    ensures Owner(cfg, inline, [t] + rest, dir, a) == Some(t)
  {
    hide TargetIps, Enforcing;
    var all := [t] + rest;
    if rest == [] {
      assert all[..0] == [];
      assert Owner(cfg, inline, [], dir, a) == None;
    } else {
      assert all[..|all| - 1] == [t] + rest[..|rest| - 1];
      FrontOwns(cfg, inline, t, rest[..|rest| - 1], dir, a);
    }
  }

  lemma PermutedMembers(ta: seq<Target>, tb: seq<Target>)
    requires multiset(ta) == multiset(tb)
    ensures SameMembers(ta, tb)
  {
    forall t ensures t in ta <==> t in tb {
      assert t in ta <==> t in multiset(ta);
      assert t in tb <==> t in multiset(tb);
    }
  }

  /** Listed first, a holder decides. */
  lemma MovedToFront(cfg: Config, targets: seq<Target>, t: Target, dir: Direction, p: Packet) returns (tb: seq<Target>)
    requires Holder(cfg, targets, t, dir, p)
    ensures multiset(tb) == multiset(targets)
    ensures Clears(cfg, tb, dir, p) <==> ContainerPermits(cfg, targets, t, dir, p)
  {
    hide Permits, Enforcing, SameConfig, Owner;
    var i :| 0 <= i < |targets| && targets[i] == t;
    assert targets == targets[..i] + [t] + targets[i + 1..];
    var rest := targets[..i] + targets[i + 1..];
    tb := [t] + rest;
    PermutedMembers(targets, tb);
    SameHolder(cfg, targets, tb, t, dir, p);
    FrontOwns(cfg, InlineOf(cfg, tb), t, rest, dir, LocalAddr(p, dir));
    ClearsByOwner(cfg, tb, dir, p);
  }

  /** The order of containers is irrelevant to a packet exactly when all isolated containers that have
      its address say the same about it; disjoint addresses are one way to be so. */
  lemma ContainerOrderExactly(cfg: Config, targets: seq<Target>, dir: Direction, p: Packet)
    ensures OrderFree(cfg, targets, dir, p) <==> HoldersAgree(cfg, targets, dir, p)
    ensures DisjointOwners(cfg, targets, dir) ==> HoldersAgree(cfg, targets, dir, p)
  {
    hide Clears, ContainerPermits, Isolated, TargetIps;
    if OrderFree(cfg, targets, dir, p) {
      forall t, u | Holder(cfg, targets, t, dir, p) && Holder(cfg, targets, u, dir, p)
        ensures ContainerPermits(cfg, targets, t, dir, p) <==> ContainerPermits(cfg, targets, u, dir, p)
      {
        var tb := MovedToFront(cfg, targets, t, dir, p);
        var ub := MovedToFront(cfg, targets, u, dir, p);
        assert Clears(cfg, tb, dir, p) <==> Clears(cfg, targets, dir, p);
        assert Clears(cfg, ub, dir, p) <==> Clears(cfg, targets, dir, p);
      }
    }
    if HoldersAgree(cfg, targets, dir, p) {
      forall tb | multiset(tb) == multiset(targets) ensures Clears(cfg, tb, dir, p) <==> Clears(cfg, targets, dir, p) {
        AgreeingOrder(cfg, targets, tb, dir, p);
      }
    }
  }

  lemma AgreeingOrder(cfg: Config, ta: seq<Target>, tb: seq<Target>, dir: Direction, p: Packet)
    requires multiset(tb) == multiset(ta) && HoldersAgree(cfg, ta, dir, p)
    ensures Clears(cfg, tb, dir, p) <==> Clears(cfg, ta, dir, p)
  {
    hide Clears, ContainerPermits, Holder, Owner;
    PermutedMembers(ta, tb);
    forall t ensures Holder(cfg, ta, t, dir, p) <==> Holder(cfg, tb, t, dir, p) {
      SameHolder(cfg, ta, tb, t, dir, p);
    }
    ClearsByOwner(cfg, ta, dir, p);
    ClearsByOwner(cfg, tb, dir, p);
    var owner := Owner(cfg, InlineOf(cfg, tb), tb, dir, LocalAddr(p, dir));
    if owner.Some? { SameHolder(cfg, ta, tb, owner.value, dir, p); }
  }

  /** So the programmed tables agree, although rule order and which network holds a contested set name
      differ: on every packet that neither side's flow logging can hide. */
  lemma ReorderedTablesAgree(
      a: Config, b: Config, ta: seq<Target>, tb: seq<Target>, ga: Option<u16>, gb: Option<u16>, p: Packet)
    requires SameConfig(a, b) && SameMembers(ta, tb) && SingleFamily(p)
    requires (a.flowlog && ga.Some?) || (b.flowlog && gb.Some?) ==> Tracked(p)
    requires ta == tb || (DisjointOwners(b, ta, Egress) && DisjointOwners(b, ta, Ingress))
    requires !Clash(Compiled(a, ta).sets) && !Clash(Compiled(b, tb).sets)
    ensures Accepts(Programmed(a, ta, ga), p) <==> Accepts(Programmed(b, tb, gb), p)
  {
    hide Accepts, Programmed, Commit, Allowed, Compiled, Clash, SameConfig, DisjointOwners;
    TableEnforcesPolicies(a, ta, ga, NoTable, p);
    TableEnforcesPolicies(b, tb, gb, NoTable, p);
    ApplyCompiled(a, ta, ga, NoTable);
    ApplyCompiled(b, tb, gb, NoTable);
    PolicyOrderIrrelevant(a, b, ta, p);
    if ta != tb { ContainerOrderIrrelevant(b, ta, tb, p); }
  }
}
