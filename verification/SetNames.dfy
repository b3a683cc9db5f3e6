/** The set table of a compile: every entry, at every point of the loop, and when two kernel names clash. */
module SetNames {
  import opened Common
  import opened Address
  import opened Policy
  import opened RulesetIR
  import opened Resolve
  import opened Emit
  import opened Compile
  import opened Apply

  // ----- the peers a compile resolves, in order -----

  function PeersOfRules(rules: seq<PolicyRule>, action: RuleAction): seq<Peer> {
    if rules == [] then [] else
      var last := rules[|rules| - 1];
      PeersOfRules(rules[..|rules| - 1], action) + (if last.action == action then last.peers else [])
  }

  function PeersOfPass(policies: seq<NamedPolicy>, dir: Direction, action: RuleAction): seq<Peer> {
    if policies == [] then [] else
      PeersOfPass(policies[..|policies| - 1], dir, action)
      + PeersOfRules(RulesOf(policies[|policies| - 1].policy, dir), action)
  }

  function PeersOfBlock(policies: seq<NamedPolicy>, dir: Direction): seq<Peer> {
    PeersOfPass(policies, dir, RuleAction.Drop) + PeersOfPass(policies, dir, Allow)
  }

  /** A container without addresses resolves nothing. */
  function PeersOfTarget(cfg: Config, inline: seq<Inline>, t: Target): seq<Peer> {
    if TargetIps(t) == {} then []
    else
      PeersOfBlock(Enforcing(cfg, inline, t, Egress), Egress)
      + PeersOfBlock(Enforcing(cfg, inline, t, Ingress), Ingress)
  }

  function PeersOfTargets(cfg: Config, inline: seq<Inline>, targets: seq<Target>): seq<Peer> {
    if targets == [] then [] else
      PeersOfTargets(cfg, inline, targets[..|targets| - 1]) + PeersOfTarget(cfg, inline, targets[|targets| - 1])
  }

  function ResolvedPeers(cfg: Config, targets: seq<Target>): seq<Peer> {
    PeersOfTargets(cfg, InlineOf(cfg, targets), targets)
  }

  /** The set table after resolving some peers. */
  function SetsAfter(s: Snapshot, peers: seq<Peer>, sets: SetTable): SetTable {
    ResolveAll(s, peers, sets).0
  }

  lemma {:induction false} SetsAfterAppend(s: Snapshot, a: seq<Peer>, b: seq<Peer>, sets: SetTable)
    ensures SetsAfter(s, a + b, sets) == SetsAfter(s, b, SetsAfter(s, a, sets))
  {
    hide ResolvePeer;
    if b == [] {
      assert a + b == a;
    } else {
      var n := |b| - 1;
      assert (a + b)[..|a| + n] == a + b[..n];
      SetsAfterAppend(s, a, b[..n], sets);
    }
  }

  lemma {:induction false} RulesResolve(job: Job, action: RuleAction, policy: string, rules: seq<PolicyRule>,
      sets: SetTable)
    ensures RulesOut(job, action, policy, rules, sets).0 == SetsAfter(job.snap, PeersOfRules(rules, action), sets)
  {
    hide ResolveAll, CompiledRules;
    if rules == [] {
      NothingResolved(job.snap, sets);
    } else {
      var init, last := rules[..|rules| - 1], rules[|rules| - 1];
      RulesResolve(job, action, policy, init, sets);
      SetsAfterAppend(job.snap, PeersOfRules(init, action), if last.action == action then last.peers else [], sets);
      NothingResolved(job.snap, SetsAfter(job.snap, PeersOfRules(init, action), sets));
    }
  }

  lemma NothingResolved(s: Snapshot, sets: SetTable)
    ensures SetsAfter(s, [], sets) == sets
  {}

  lemma {:induction false} PassResolves(job: Job, action: RuleAction, policies: seq<NamedPolicy>, sets: SetTable)
    ensures PassOut(job, action, policies, sets).0 == SetsAfter(job.snap, PeersOfPass(policies, job.dir, action), sets)
  {
    hide SetsAfter, RulesOut, PeersOfRules;
    if policies == [] {
      NothingResolved(job.snap, sets);
    } else {
      var init, last := policies[..|policies| - 1], policies[|policies| - 1];
      PassResolves(job, action, init, sets);
      RulesResolve(job, action, last.name, RulesOf(last.policy, job.dir), PassOut(job, action, init, sets).0);
      SetsAfterAppend(job.snap, PeersOfPass(init, job.dir, action),
                      PeersOfRules(RulesOf(last.policy, job.dir), action), sets);
    }
  }

  lemma DirResolves(cfg: Config, s: Snapshot, inline: seq<Inline>, t: Target, dir: Direction, rs: Rules)
    ensures CompileDir(cfg, s, inline, t, dir, rs).sets
         == SetsAfter(s, PeersOfBlock(Enforcing(cfg, inline, t, dir), dir), rs.sets)
  {
    hide SetsAfter, PassOut, Enforcing;
    var policies, job := Enforcing(cfg, inline, t, dir), Job(s, t, dir, cfg.flowlog);
    if policies == [] {
      assert PeersOfBlock(policies, dir) == [];
      NothingResolved(s, rs.sets);
    } else {
      PassResolves(job, RuleAction.Drop, policies, rs.sets);
      PassResolves(job, Allow, policies, PassOut(job, RuleAction.Drop, policies, rs.sets).0);
      SetsAfterAppend(s, PeersOfPass(policies, dir, RuleAction.Drop), PeersOfPass(policies, dir, Allow), rs.sets);
    }
  }

  lemma {:induction false} TargetsResolve(cfg: Config, s: Snapshot, inline: seq<Inline>, done: seq<Target>)
    ensures CompileTargets(cfg, s, inline, done).sets == SetsAfter(s, PeersOfTargets(cfg, inline, done), map[])
  {
    hide SetsAfter, CompileDir, PeersOfBlock, Enforcing;
    if done == [] {
      NothingResolved(s, map[]);
    } else {
      var init, t := done[..|done| - 1], done[|done| - 1];
      var rs := CompileTargets(cfg, s, inline, init);
      TargetsResolve(cfg, s, inline, init);
      NothingResolved(s, rs.sets);
      DirResolves(cfg, s, inline, t, Egress, rs);
      DirResolves(cfg, s, inline, t, Ingress, CompileDir(cfg, s, inline, t, Egress, rs));
      var egress := PeersOfBlock(Enforcing(cfg, inline, t, Egress), Egress);
      SetsAfterAppend(s, egress, PeersOfBlock(Enforcing(cfg, inline, t, Ingress), Ingress), rs.sets);
      SetsAfterAppend(s, PeersOfTargets(cfg, inline, init), PeersOfTarget(cfg, inline, t), map[]);
    }
  }

  /** The compiled set table is what resolving those peers one after another leaves. */
  lemma CompiledSetsFold(cfg: Config, targets: seq<Target>)
    ensures Compiled(cfg, targets).sets == SetsAfter(SnapshotOf(cfg, targets), ResolvedPeers(cfg, targets), map[])
  {
    TargetsResolve(cfg, SnapshotOf(cfg, targets), InlineOf(cfg, targets), targets);
  }

  lemma {:induction false} SetsOnlyGrow(s: Snapshot, peers: seq<Peer>, sets: SetTable)
    ensures Extends(sets, SetsAfter(s, peers, sets))
  {
    hide ResolvePeer, Extends;
    if peers == [] {
      ExtendsItself(sets);
    } else {
      var init := peers[..|peers| - 1];
      SetsOnlyGrow(s, init, sets);
      ResolveExtends(s, peers[|peers| - 1], SetsAfter(s, init, sets));
      ExtendsTransitive(sets, SetsAfter(s, init, sets), SetsAfter(s, peers, sets));
    }
  }

  lemma ExtendsItself(sets: SetTable)
    ensures Extends(sets, sets)
  {}

  /** An entry present after any number of the compile's resolutions is the same in the final table. */
  lemma EntriesNeverChange(cfg: Config, targets: seq<Target>, n: nat)
    requires n <= |ResolvedPeers(cfg, targets)|
    ensures Extends(SetsAfter(SnapshotOf(cfg, targets), ResolvedPeers(cfg, targets)[..n], map[]),
                    Compiled(cfg, targets).sets)
  {
    hide SetsAfter, Extends, ResolvedPeers, Compiled, SnapshotOf;
    var s, peers := SnapshotOf(cfg, targets), ResolvedPeers(cfg, targets);
    CompiledSetsFold(cfg, targets);
    assert peers == peers[..n] + peers[n..];
    SetsAfterAppend(s, peers[..n], peers[n..], map[]);
    SetsOnlyGrow(s, peers[n..], SetsAfter(s, peers[..n], map[]));
  }

  // ----- what the table holds -----

  /** The peer is a lone network whose set is named `name`. */
  predicate Claims(peer: Peer, name: string) {
    peer.cidr.None? && LoneNetwork(peer) && SetName(peer.network.value) == name
  }

  /** The network of the first peer to claim a set name. */
  function Claimant(peers: seq<Peer>, name: string): Option<string> {
    if peers == [] then None else
      var before := Claimant(peers[..|peers| - 1], name);
      if before.Some? then before
      else if Claims(peers[|peers| - 1], name) then peers[|peers| - 1].network
      else None
  }

  /** A name is registered exactly when some peer claims it, and holds the first claimant's members. */
  lemma {:induction false} TableByClaims(s: Snapshot, peers: seq<Peer>, name: string)
    ensures var sets, claimant := SetsAfter(s, peers, map[]), Claimant(peers, name);
            && (name in sets <==> claimant.Some?)
            && (claimant.Some? ==> sets[name] == MembersIn(s.index, claimant.value))
  {
    hide MembersIn, SetName, SomeAddrs, IdentityAddrs, ResolveCidr;
    if peers == [] {
    } else {
      TableByClaims(s, peers[..|peers| - 1], name);
    }
  }

  // ----- when two kernel names clash -----

  /** Some container has an address of the family on the network. */
  predicate HasFamily(targets: seq<Target>, network: string, f: Family) {
    exists t, a :: t in targets && network in t.networks && a in t.networks[network] && FamilyOf(a) == f
  }

  lemma MembersOfFamily(targets: seq<Target>, network: string, f: Family)
    ensures FamilyAddrs(MembersIn(BuildIndex(targets), network), f) != {} <==> HasFamily(targets, network, f)
  {
    hide BuildIndex, MembersIn;
    forall a ensures a in MembersIn(BuildIndex(targets), network)
      <==> exists t :: t in targets && OnNetwork(t, network, a) {
      IndexMembers(targets, network, a);
    }
    var members := MembersIn(BuildIndex(targets), network);
    if FamilyAddrs(members, f) != {} {
      var a :| a in FamilyAddrs(members, f);
      var t :| t in targets && OnNetwork(t, network, a);
    }
    if HasFamily(targets, network, f) {
      var t, a :| t in targets && network in t.networks && a in t.networks[network] && FamilyOf(a) == f;
      assert OnNetwork(t, network, a);
      assert a in FamilyAddrs(members, f);
    }
  }

  /** The first claimants of a name and of the name with `_6` appended have IPv6 and IPv4 members. */
  predicate ClashingClaims(targets: seq<Target>, peers: seq<Peer>, name: string) {
    var six, four := Claimant(peers, name), Claimant(peers, name + "_6");
    six.Some? && four.Some? && HasFamily(targets, six.value, Inet6) && HasFamily(targets, four.value, Inet4)
  }

  /** Which policies and containers make the kernel refuse a batch. */
  lemma ClashExactly(cfg: Config, targets: seq<Target>)
    ensures Clash(Compiled(cfg, targets).sets)
       <==> exists name: string :: ClashingClaims(targets, ResolvedPeers(cfg, targets), name)
  {
    hide Compiled, ResolvedPeers, SetsAfter, Claimant, HasFamily, FamilyAddrs, MembersIn, BuildIndex;
    var s, peers, sets := SnapshotOf(cfg, targets), ResolvedPeers(cfg, targets), Compiled(cfg, targets).sets;
    CompiledSetsFold(cfg, targets);
    forall name: string, f
      ensures Occupied(sets, name, f)
         <==> Claimant(peers, name).Some? && HasFamily(targets, Claimant(peers, name).value, f)
    {
      TableByClaims(s, peers, name);
      if Claimant(peers, name).Some? { MembersOfFamily(targets, Claimant(peers, name).value, f); }
    }
    if Clash(sets) {
      var n :| n in sets && n + "_6" in sets && Occupied(sets, n, Inet6) && Occupied(sets, n + "_6", Inet4);
      assert ClashingClaims(targets, peers, n);
    }
    if name: string :| ClashingClaims(targets, peers, name) {
      assert Occupied(sets, name, Inet6) && Occupied(sets, name + "_6", Inet4);
    }
  }

  /** Two of the snapshot's networks want one kernel name: one has IPv6 members and its set name with
      `_6` appended is the set name of the other, which has IPv4 members. */
  predicate ClashPair(targets: seq<Target>, six: string, four: string) {
    SetName(six) + "_6" == SetName(four) && HasFamily(targets, six, Inet6) && HasFamily(targets, four, Inet4)
  }

  lemma {:induction false} ClaimantClaims(peers: seq<Peer>, name: string)
    ensures Claimant(peers, name).Some? ==> SetName(Claimant(peers, name).value) == name
  {
    hide SetName;
    if peers == [] {
    } else {
      ClaimantClaims(peers[..|peers| - 1], name);
    }
  }

  /** A snapshot in which no two networks clash is safe for every set of policies. */
  lemma SafeNetworks(cfg: Config, targets: seq<Target>)
    requires forall six, four :: !ClashPair(targets, six, four)
    ensures !Clash(Compiled(cfg, targets).sets)
  {
    hide Compiled, ResolvedPeers, Claimant, HasFamily, SetName;
    ClashExactly(cfg, targets);
    var peers := ResolvedPeers(cfg, targets);
    forall name: string ensures !ClashingClaims(targets, peers, name) {
      var six, four := Claimant(peers, name), Claimant(peers, name + "_6");
      ClaimantClaims(peers, name);
      ClaimantClaims(peers, name + "_6");
      assert six.Some? && four.Some? ==> !ClashPair(targets, six.value, four.value);
    }
  }

  // ----- the condition on the snapshot is exact -----

  function LonePeer(network: string): Peer {
    Peer(None, Some(network), None, [], None)
  }

  /** One egress rule of one global policy names both networks. */
  function BothNetworks(six: string, four: string): Config {
    var rule := PolicyRule([LonePeer(six), LonePeer(four)], [], Allow, None);
    Config("suho", [NamedPolicy("both", NetworkPolicy(None, [Egress], [], [rule]))], false, NO_READER, NO_POLICIES)
  }

  lemma {:induction false} OnlyClaimant(peers: seq<Peer>, network: string)
    requires LonePeer(network) in peers
    requires forall q :: q in peers && Claims(q, SetName(network)) ==> q == LonePeer(network)
    ensures Claimant(peers, SetName(network)) == Some(network)
  {
    hide SetName;
    var init, last := peers[..|peers| - 1], peers[|peers| - 1];
    assert peers == init + [last];
    if LonePeer(network) in init {
      OnlyClaimant(init, network);
    } else {
      NoClaimant(init, SetName(network));
    }
  }

  lemma {:induction false} NoClaimant(peers: seq<Peer>, name: string)
    requires forall q :: q in peers ==> !Claims(q, name)
    ensures Claimant(peers, name) == None
  {
    hide Claims;
    if peers == [] {
    } else {
      NoClaimant(peers[..|peers| - 1], name);
    }
  }

  lemma BothEnforced(six: string, four: string, t: Target, dir: Direction)
    ensures var g := BothNetworks(six, four).globals[0];
            PeersOfBlock(Enforcing(BothNetworks(six, four), [], t, dir), dir)
              == if dir == Egress then [LonePeer(six), LonePeer(four)] else []
  {
    var cfg := BothNetworks(six, four);
    var g := cfg.globals[0];
    OneGlobalEnforces(cfg, g, t, dir);
    if dir == Egress {
      assert [g][..0] == [] && g.policy.egress[..0] == [];
      assert PeersOfPass([], Egress, RuleAction.Drop) == [] && PeersOfPass([], Egress, Allow) == [];
      assert PeersOfRules([], RuleAction.Drop) == [] && PeersOfRules([], Allow) == [];
      assert PeersOfRules(g.policy.egress, RuleAction.Drop) == [];
      assert PeersOfRules(g.policy.egress, Allow) == [LonePeer(six), LonePeer(four)];
    }
  }

  lemma {:induction false} BothResolved(six: string, four: string, targets: seq<Target>)
    ensures var peers := PeersOfTargets(BothNetworks(six, four), [], targets);
            && (forall q :: q in peers ==> q == LonePeer(six) || q == LonePeer(four))
            && ((exists t :: t in targets && TargetIps(t) != {}) ==> LonePeer(six) in peers && LonePeer(four) in peers)
  {
    hide PeersOfBlock, Enforcing, BothNetworks, TargetIps;
    if targets == [] {
    } else {
      var init, last := targets[..|targets| - 1], targets[|targets| - 1];
      assert targets == init + [last];
      BothResolved(six, four, init);
      BothEnforced(six, four, last, Egress);
      BothEnforced(six, four, last, Ingress);
    }
  }

  lemma ShortNameDiffers(six: string, four: string)
    requires SetName(six) + "_6" == SetName(four)
    ensures SetName(six) != SetName(four)
  {
    assert |SetName(four)| == |SetName(six)| + 2;
  }

  /** Where two networks of a snapshot do clash, one policy is enough for a batch the kernel refuses. */
  lemma ClashHappens(targets: seq<Target>, six: string, four: string)
    requires ClashPair(targets, six, four)
    ensures Clash(Compiled(BothNetworks(six, four), targets).sets)
  {
    hide Compiled, PeersOfTargets, HasFamily, SetName, Claimant;
    var cfg := BothNetworks(six, four);
    NoLabelPolicies(cfg, targets);
    BothResolved(six, four, targets);
    HoldsAddress(targets, six, Inet6);
    ShortNameDiffers(six, four);
    var peers := ResolvedPeers(cfg, targets);
    OnlyClaimant(peers, six);
    OnlyClaimant(peers, four);
    ClashExactly(cfg, targets);
    assert ClashingClaims(targets, peers, SetName(six));
  }

  lemma HoldsAddress(targets: seq<Target>, network: string, f: Family)
    requires HasFamily(targets, network, f)
    ensures exists t :: t in targets && TargetIps(t) != {}
  {
    var t, a :| t in targets && network in t.networks && a in t.networks[network] && FamilyOf(a) == f;
    assert a in TargetIps(t);
  }

  /** No policies can make the kernel refuse a snapshot's batch exactly when no two of its networks clash. */
  lemma SafeNetworksExactly(targets: seq<Target>)
    ensures (forall cfg :: !Clash(Compiled(cfg, targets).sets))
         <==> (forall six, four :: !ClashPair(targets, six, four))
  {
    hide Compiled, Clash, ClashPair;
    if forall six, four :: !ClashPair(targets, six, four) {
      forall cfg ensures !Clash(Compiled(cfg, targets).sets) { SafeNetworks(cfg, targets); }
    }
    if forall cfg :: !Clash(Compiled(cfg, targets).sets) {
      forall six, four ensures !ClashPair(targets, six, four) {
        if ClashPair(targets, six, four) { ClashHappens(targets, six, four); }
      }
    }
  }

  /** One container on networks `a` (over IPv6) and `a_6` (over IPv4) is such a snapshot. */
  lemma ClashWitness(v6: Octets16, v4: Octets4)
    ensures var t := Target("app", map[], map["a" := [V6(v6)], "a_6" := [V4(v4)]]);
            Clash(Compiled(BothNetworks("a", "a_6"), [t]).sets)
  {
    hide Compiled, Clash;
    var t := Target("app", map[], map["a" := [V6(v6)], "a_6" := [V4(v4)]]);
    assert Sanitize("a") == "a" && Sanitize("a_6") == "a_6";
    assert t in [t] && V6(v6) in t.networks["a"] && V4(v4) in t.networks["a_6"];
    assert FamilyOf(V6(v6)) == Inet6 && FamilyOf(V4(v4)) == Inet4;
    ClashHappens([t], "a", "a_6");
  }
}
