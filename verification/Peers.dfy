/** What a resolved peer denotes, by its fields. */
module Peers {
  import opened Common
  import opened Address
  import opened Policy
  import opened RulesetIR
  import opened Resolve
  import opened Compile
  import opened Documented
  import opened Agreement

  /** A peer that resolved to nothing denotes nothing. */
  predicate Denoted(m: Option<Match>, sets: SetTable, a: IpAddr) {
    m.Some? && Denotes(m.value, sets, a)
  }

  /** In every later state of the set table, a resolved peer denotes exactly the addresses it stands for. */
  lemma ResolvedPeerExactly(cfg: Config, targets: seq<Target>, q: Peer, sets: SetTable, final: SetTable, a: IpAddr)
    requires Extends(ResolvePeer(SnapshotOf(cfg, targets), q, sets).0, final)
    ensures Denoted(ResolvePeer(SnapshotOf(cfg, targets), q, sets).1, final, a)
       <==> PeerIs(cfg.readIp, targets, q, a)
  {
    hide PeerIs, PeerSelects, ResolvePeer, Denotes, BuildIndex;
    PeerAgrees(cfg, targets, q, a);
    ResolveMeaning(SnapshotOf(cfg, targets), q, sets, final, a);
  }

  /** Only the peer with no field set resolves to any address. */
  lemma OnlyBarePeerIsAny(s: Snapshot, q: Peer, sets: SetTable)
    ensures ResolvePeer(s, q, sets).1 == Some(Any)
       <==> q.cidr.None? && q.container.None? && q.network.None? && q.selector.None?
  {}

  /** Without a block and with some identity field set, every address a peer denotes belongs to a
      container that satisfies each field that is set. */
  lemma FiltersHold(cfg: Config, targets: seq<Target>, q: Peer, sets: SetTable, final: SetTable, a: IpAddr)
    requires Extends(ResolvePeer(SnapshotOf(cfg, targets), q, sets).0, final)
    requires q.cidr.None? && (q.container.Some? || q.network.Some? || q.selector.Some?)
    requires Denoted(ResolvePeer(SnapshotOf(cfg, targets), q, sets).1, final, a)
    ensures exists t ::
              && t in targets && HasAddress(t, a)
              && (q.container.Some? ==> t.name == q.container.value)
              && (q.network.Some? ==> q.network.value in t.networks)
              && (q.selector.Some? ==> q.selector.value.Items <= t.labels.Items)
  {
    hide ResolvePeer, Denoted, BuildIndex, InText;
    ResolvedPeerExactly(cfg, targets, q, sets, final, a);
  }

  /** A lone network denotes exactly the addresses that containers have on that network. */
  lemma LoneNetworkExactly(cfg: Config, targets: seq<Target>, q: Peer, sets: SetTable, final: SetTable, a: IpAddr)
    requires Extends(ResolvePeer(SnapshotOf(cfg, targets), q, sets).0, final)
    requires q.cidr.None? && q.container.None? && q.network.Some? && q.selector.None?
    ensures Denoted(ResolvePeer(SnapshotOf(cfg, targets), q, sets).1, final, a)
       <==> exists t :: t in targets && q.network.value in t.networks && a in t.networks[q.network.value]
  {
    hide ResolvePeer, Denoted, BuildIndex, InText;
    ResolvedPeerExactly(cfg, targets, q, sets, final, a);
  }

  /** A container name or a selector, alone or with other fields, denotes every address of the
      containers that satisfy each field that is set. */
  lemma CombinedExactly(cfg: Config, targets: seq<Target>, q: Peer, sets: SetTable, final: SetTable, a: IpAddr)
    requires Extends(ResolvePeer(SnapshotOf(cfg, targets), q, sets).0, final)
    requires q.cidr.None? && (q.container.Some? || q.selector.Some?)
    ensures Denoted(ResolvePeer(SnapshotOf(cfg, targets), q, sets).1, final, a)
       <==> exists t ::
              && t in targets && HasAddress(t, a)
              && (q.container.Some? ==> t.name == q.container.value)
              && (q.network.Some? ==> q.network.value in t.networks)
              && (q.selector.Some? ==> q.selector.value.Items <= t.labels.Items)
  {
    hide ResolvePeer, Denoted, BuildIndex, InText;
    ResolvedPeerExactly(cfg, targets, q, sets, final, a);
  }
}
