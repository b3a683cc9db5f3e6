/** From policies to packets: the programmed table enforces what the policies mean. */
module EndToEnd {
  import opened Common
  import opened Address
  import opened Policy
  import opened Packets
  import opened RulesetIR
  import opened Emit
  import opened Compile
  import opened Kernel
  import opened Apply
  import opened Install

  /** What one reconcile commits for a snapshot. */
  function Programmed(cfg: Config, targets: seq<Target>, group: Option<u16>): Kernel {
    CompiledBuilds(cfg, targets, group);
    Has(TableOf(Compiled(cfg, targets), group))
  }

  lemma CompiledBuilds(cfg: Config, targets: seq<Target>, group: Option<u16>)
    ensures Sound(Compiled(cfg, targets)) && Buildable(Compiled(cfg, targets), group)
  {
    CompiledSound(cfg, targets);
    SoundBuilds(Compiled(cfg, targets), group);
  }

  /** Applying a compiled ruleset replaces whatever table there was, or (on a set-name clash) changes nothing. */
  lemma ApplyCompiled(cfg: Config, targets: seq<Target>, group: Option<u16>, k: Kernel)
    ensures Buildable(Compiled(cfg, targets), group)
    ensures Commit(BatchOf(Compiled(cfg, targets), group), k)
         == if Clash(Compiled(cfg, targets).sets) then (k, false) else (Programmed(cfg, targets, group), true)
  {
    CompiledBuilds(cfg, targets, group);
    CommitExact(Compiled(cfg, targets), group, k);
  }

  /** Neither direction's first verdict drops the packet. */
  predicate PassesBoth(cfg: Config, targets: seq<Target>, p: Packet, logging: bool) {
    && DirectionVerdict(cfg, targets, Egress, p, logging) != Some(Verdict.Drop)
    && DirectionVerdict(cfg, targets, Ingress, p, logging) != Some(Verdict.Drop)
  }

  /** What the programmed table does with any single-family packet, in every conntrack state. */
  lemma TableVerdictExactly(cfg: Config, targets: seq<Target>, group: Option<u16>, p: Packet)
    requires SingleFamily(p) && !Clash(Compiled(cfg, targets).sets)
    ensures Accepts(Programmed(cfg, targets, group), p) <==> ReplyTraffic(p) || PassesBoth(cfg, targets, p, group.Some?)
  {
    hide Accepts, TableOf, DirectionVerdict, FirstMatch, Compiled;
    CompiledBuilds(cfg, targets, group);
    TableMeaning(Compiled(cfg, targets), group, p);
    CompiledChainVerdict(cfg, targets, Egress, p, group.Some?);
    CompiledChainVerdict(cfg, targets, Ingress, p, group.Some?);
  }

  /** Main theorem: for every snapshot, policies, NFLOG setting and earlier table, what an apply
      leaves accepts a single-family packet exactly when it is reply traffic or the first isolated
      owner of its source and the first isolated owner of its destination both permit it. Only with
      flow logging on need the packet be in one of the states NEW, ESTABLISHED or RELATED. */
  lemma TableEnforcesPolicies(cfg: Config, targets: seq<Target>, group: Option<u16>, k: Kernel, p: Packet)
    requires SingleFamily(p) && (cfg.flowlog && group.Some? ==> Tracked(p)) && !Clash(Compiled(cfg, targets).sets)
    ensures Buildable(Compiled(cfg, targets), group)
    ensures var (after, accepted) := Commit(BatchOf(Compiled(cfg, targets), group), k);
            accepted && (Accepts(after, p) <==> Allowed(cfg, targets, p))
  {
    hide Accepts, Commit, BatchOf, DirectionVerdict, FirstMatch, Compiled, Clears;
    ApplyCompiled(cfg, targets, group, k);
    TableVerdictExactly(cfg, targets, group, p);
    if !ReplyTraffic(p) {
      CompiledChainVerdict(cfg, targets, Egress, p, group.Some?);
      CompiledChainVerdict(cfg, targets, Ingress, p, group.Some?);
      CompiledChainMeaning(cfg, targets, Egress, p, group.Some?);
      CompiledChainMeaning(cfg, targets, Ingress, p, group.Some?);
    }
  }

  /** A container is isolated in a direction when some applicable policy enforces it. */
  predicate Isolated(cfg: Config, targets: seq<Target>, t: Target, dir: Direction) {
    Enforcing(cfg, InlineOf(cfg, targets), t, dir) != []
  }

  /** No two different isolated containers share an address. */
  predicate DisjointOwners(cfg: Config, targets: seq<Target>, dir: Direction) {
    forall t, u ::
      t in targets && u in targets && t != u && Isolated(cfg, targets, t, dir) && Isolated(cfg, targets, u, dir) ==>
        TargetIps(t) !! TargetIps(u)
  }

  /** The container's own policies permit the packet. */
  predicate ContainerPermits(cfg: Config, targets: seq<Target>, t: Target, dir: Direction, p: Packet) {
    Permits(SnapshotOf(cfg, targets), Enforcing(cfg, InlineOf(cfg, targets), t, dir), dir, p)
  }

  lemma {:induction false} OwnerIsCandidate(
      cfg: Config, inline: seq<Inline>, targets: seq<Target>, dir: Direction, a: IpAddr)
    ensures var owner := Owner(cfg, inline, targets, dir, a);
            && (owner.Some? ==> owner.value in targets && a in TargetIps(owner.value)
                                && Enforcing(cfg, inline, owner.value, dir) != [])
            && (owner.None? ==> forall t :: t in targets && a in TargetIps(t) ==> Enforcing(cfg, inline, t, dir) == [])
  {
    if targets == [] {
    } else {
      assert targets == targets[..|targets| - 1] + [targets[|targets| - 1]];
      OwnerIsCandidate(cfg, inline, targets[..|targets| - 1], dir, a);
    }
  }

  /** With disjoint addresses the owner is the one isolated container that has the address. */
  lemma DisjointClears(cfg: Config, targets: seq<Target>, dir: Direction, p: Packet)
    requires DisjointOwners(cfg, targets, dir)
    ensures Clears(cfg, targets, dir, p)
       <==> forall t :: t in targets && LocalAddr(p, dir) in TargetIps(t) && Isolated(cfg, targets, t, dir)
              ==> ContainerPermits(cfg, targets, t, dir, p)
  {
    var a := LocalAddr(p, dir);
    OwnerIsCandidate(cfg, InlineOf(cfg, targets), targets, dir, a);
    var owner := Owner(cfg, InlineOf(cfg, targets), targets, dir, a);
    if owner.Some? {
      forall t | t in targets && a in TargetIps(t) && Isolated(cfg, targets, t, dir) ensures t == owner.value {
        assert Isolated(cfg, targets, owner.value, dir);
      }
    }
  }
}
