/** Peer resolution over a container snapshot: peers become address matches, networks become named sets. */
module Resolve {
  import opened Common
  import opened Ordering
  import opened Address
  import opened Policy
  import opened RulesetIR

  /** What every resolution in one compile shares. `index` maps a network to its members' addresses. */
  datatype Snapshot = Snapshot(targets: seq<Target>, index: map<string, set<IpAddr>>, readIp: IpReader)

  // ----- network index -----

  predicate OnNetwork(t: Target, network: string, a: IpAddr) {
    network in t.networks && a in t.networks[network]
  }

  function AddNetwork(index: map<string, set<IpAddr>>, network: string, addrs: seq<IpAddr>): map<string, set<IpAddr>> {
    var known := if network in index then index[network] else {};
    index[network := known + set a | a in addrs]
  }

  /** The index after the first `n` of the networks `names` of `t`. */
  function AddNetworks(index: map<string, set<IpAddr>>, t: Target, names: seq<string>): map<string, set<IpAddr>>
    requires forall k :: k in names ==> k in t.networks
  {
    if names == [] then index else
      var network := names[|names| - 1];
      AddNetwork(AddNetworks(index, t, names[..|names| - 1]), network, t.networks[network])
  }

  function BuildIndex(targets: seq<Target>): map<string, set<IpAddr>> {
    if targets == [] then map[] else
      var t := targets[|targets| - 1];
      AddNetworks(BuildIndex(targets[..|targets| - 1]), t, AscendingStrings(t.networks.Keys))
  }

  method IndexTarget(index: map<string, set<IpAddr>>, t: Target, names: seq<string>)
    returns (netIps: map<string, set<IpAddr>>)
    requires forall k :: k in names ==> k in t.networks
    ensures netIps == AddNetworks(index, t, names)
  {
    netIps := index;
    for j := 0 to |names|
      invariant netIps == AddNetworks(index, t, names[..j])
    {
      assert names[..j + 1][..j] == names[..j];
      netIps := AddNetwork(netIps, names[j], t.networks[names[j]]);
    }
    assert names[..|names|] == names;
  }

  method IndexTargets(targets: seq<Target>) returns (netIps: map<string, set<IpAddr>>)
    ensures netIps == BuildIndex(targets)
  {
    netIps := map[];
    for i := 0 to |targets|
      invariant netIps == BuildIndex(targets[..i])
    {
      assert targets[..i + 1][..i] == targets[..i];
      netIps := IndexTarget(netIps, targets[i], AscendingStrings(targets[i].networks.Keys));
    }
    assert targets[..|targets|] == targets;
  }

  function MembersIn(index: map<string, set<IpAddr>>, network: string): set<IpAddr> {
    if network in index then index[network] else {}
  }

  lemma {:induction false} AddNetworksMembers(
      index: map<string, set<IpAddr>>, t: Target, names: seq<string>, network: string, a: IpAddr)
    requires forall k :: k in names ==> k in t.networks
    ensures a in MembersIn(AddNetworks(index, t, names), network)
       <==> a in MembersIn(index, network) || (network in names && OnNetwork(t, network, a))
  {
    if names == [] {
    } else {
      AddNetworksMembers(index, t, names[..|names| - 1], network, a);
    }
  }

  /** The index holds, per network, exactly the addresses its attached containers have on it. */
  lemma {:induction false} IndexMembers(targets: seq<Target>, network: string, a: IpAddr)
    ensures a in MembersIn(BuildIndex(targets), network)
       <==> exists t :: t in targets && OnNetwork(t, network, a)
  {
    if targets == [] {
    } else {
      var init, last := targets[..|targets| - 1], targets[|targets| - 1];
      assert targets == init + [last];
      IndexMembers(init, network, a);
      AddNetworksMembers(BuildIndex(init), last, AscendingStrings(last.networks.Keys), network, a);
    }
  }

  predicate Indexed(s: Snapshot) {
    s.index == BuildIndex(s.targets)
  }

  // ----- set names -----

  predicate SetNameChar(c: char) {
    'a' <= c <= 'z' || 'A' <= c <= 'Z' || '0' <= c <= '9' || c == '_'
  }

  /** Characters an nftables identifier cannot hold become `_`; distinct networks may collide. */
  function Sanitize(name: string): (r: string)
    ensures |r| == |name| && forall i | 0 <= i < |r| :: SetNameChar(r[i])
  {
    seq(|name|, i requires 0 <= i < |name| => if SetNameChar(name[i]) then name[i] else '_')
  }

  function SetName(network: string): string {
    "net_" + Sanitize(network)
  }

  /** `net_`, then the network's name with every character but ASCII letters, digits and `_` made `_`. */
  lemma SetNameExactly(network: string)
    ensures |SetName(network)| == 4 + |network| && SetName(network)[..4] == "net_"
    ensures forall i | 0 <= i < |network| ::
              var c := network[i];
              SetName(network)[4 + i]
                == if 'a' <= c <= 'z' || 'A' <= c <= 'Z' || '0' <= c <= '9' || c == '_' then c else '_'
  {
    assert SetName(network) == "net_" + Sanitize(network);
  }

  // ----- resolving one peer -----

  /** Excepts that do not parse, or are of the other family, vanish. */
  function KeptExcepts(readIp: IpReader, cidr: Cidr, except: seq<string>): (r: seq<Cidr>)
    ensures forall e :: e in r ==> ValidCidr(e) && FamilyOf(e.addr) == FamilyOf(cidr.addr)
  {
    if except == [] then [] else
      var rest := KeptExcepts(readIp, cidr, except[1..]);
      match ParseCidr(readIp, except[0])
      case Ok(e) => if FamilyOf(e.addr) == FamilyOf(cidr.addr) then [e] + rest else rest
      case Err(_) => rest
  }

  function ResolveCidr(readIp: IpReader, text: string, except: seq<string>): Option<Match> {
    match ParseCidr(readIp, text)
    case Ok(cidr) => Some(Block(cidr, KeptExcepts(readIp, cidr, except)))
    case Err(_) => None
  }

  /** All identity filters that are set hold of the container. */
  predicate Identifies(peer: Peer, t: Target) {
    && (peer.container.Some? ==> t.name == peer.container.value)
    && (peer.network.Some? ==> peer.network.value in t.networks)
    && (peer.selector.Some? ==> SelectorMatches(peer.selector.value, t.labels))
  }

  function IdentityAddrs(peer: Peer, targets: seq<Target>): set<IpAddr> {
    set t, a | t in targets && Identifies(peer, t) && a in TargetIps(t) :: a
  }

  function SomeAddrs(addrs: set<IpAddr>): Option<Match> {
    if addrs == {} then None else Some(Addrs(addrs))
  }

  /** A lone network registers (or reuses) its named set; if another network holds the
      name with other members, the addresses are inlined instead. */
  function ResolveNetwork(network: string, members: set<IpAddr>, sets: SetTable): (SetTable, Option<Match>) {
    var name := SetName(network);
    if name in sets && sets[name] != members then (sets, SomeAddrs(members))
    else (if name in sets then sets else sets[name := members], Some(Named(name)))
  }

  predicate NoFilters(peer: Peer) {
    peer.container.None? && peer.network.None? && peer.selector.None?
  }

  predicate LoneNetwork(peer: Peer) {
    peer.container.None? && peer.network.Some? && peer.selector.None?
  }

  /** The set table after, and the match for, one peer. */
  function ResolvePeer(s: Snapshot, peer: Peer, sets: SetTable): (SetTable, Option<Match>) {
    if peer.cidr.Some? then (sets, ResolveCidr(s.readIp, peer.cidr.value, peer.except))
    else if NoFilters(peer) then (sets, Some(Any))
    else if LoneNetwork(peer) then ResolveNetwork(peer.network.value, MembersIn(s.index, peer.network.value), sets)
    else (sets, SomeAddrs(IdentityAddrs(peer, s.targets)))
  }

  /** Resolves a peer, registering any set it references in the ruleset. */
  method Resolve(s: Snapshot, peer: Peer, rs: Ruleset) returns (m: Option<Match>)
    modifies rs`sets
    ensures (rs.sets, m) == ResolvePeer(s, peer, old(rs.sets))
    ensures m == Some(Any) <==>
              peer.cidr.None? && peer.container.None? && peer.network.None? && peer.selector.None?
    ensures m.Some? && m.value.Addrs? ==> m.value.addrs != {}
  {
    if peer.cidr.Some? {
      return ResolveCidr(s.readIp, peer.cidr.value, peer.except);
    }
    if NoFilters(peer) {
      return Some(Any);
    }
    if LoneNetwork(peer) {
      var name := SetName(peer.network.value);
      var members := MembersIn(s.index, peer.network.value);
      if name in rs.sets && rs.sets[name] != members {
        return SomeAddrs(members);
      }
      if name !in rs.sets {
        rs.sets := rs.sets[name := members];
      }
      return Some(Named(name));
    }
    m := SomeAddrs(IdentityAddrs(peer, s.targets));
  }

  // ----- what a peer means -----

  /** An address inside the peer's block and outside every except that parses in its family. */
  predicate CidrSelects(readIp: IpReader, text: string, except: seq<string>, a: IpAddr) {
    var block := ParseCidr(readIp, text);
    && block.Ok?
    && InBlock(block.value, a)
    && forall e :: e in except && ParseCidr(readIp, e).Ok? ==> !InBlock(ParseCidr(readIp, e).value, a)
  }

  /** The documented meaning of a peer: the addresses it stands for in a snapshot. A block
      overrides the identity filters; a lone network means addresses on that network; any
      other combination means all addresses of the containers satisfying every filter. */
  predicate PeerSelects(s: Snapshot, peer: Peer, a: IpAddr) {
    if peer.cidr.Some? then CidrSelects(s.readIp, peer.cidr.value, peer.except, a)
    else if NoFilters(peer) then true
    else if LoneNetwork(peer) then exists t :: t in s.targets && OnNetwork(t, peer.network.value, a)
    else exists t :: t in s.targets && Identifies(peer, t) && a in TargetIps(t)
  }

  lemma {:induction false} InKeptExcepts(readIp: IpReader, cidr: Cidr, except: seq<string>, c: Cidr)
    ensures c in KeptExcepts(readIp, cidr, except)
       <==> FamilyOf(c.addr) == FamilyOf(cidr.addr) && exists e :: e in except && ParseCidr(readIp, e) == Ok(c)
  {
    if except == [] {
    } else {
      assert except == [except[0]] + except[1..];
      InKeptExcepts(readIp, cidr, except[1..], c);
    }
  }

  lemma CidrMeaning(readIp: IpReader, text: string, except: seq<string>, sets: SetTable, a: IpAddr)
    ensures var m := ResolveCidr(readIp, text, except);
            CidrSelects(readIp, text, except, a) <==> m.Some? && Denotes(m.value, sets, a)
  {
    var block := ParseCidr(readIp, text);
    if block.Ok? {
      var cidr := block.value;
      var kept := KeptExcepts(readIp, cidr, except);
      OutsideMembers(kept, a);
      if InBlock(cidr, a) {
        forall e | e in except && ParseCidr(readIp, e).Ok?
          ensures InBlock(ParseCidr(readIp, e).value, a) ==> ParseCidr(readIp, e).value in kept
        {
          InKeptExcepts(readIp, cidr, except, ParseCidr(readIp, e).value);
        }
        forall c | c in kept ensures exists e :: e in except && ParseCidr(readIp, e) == Ok(c) {
          InKeptExcepts(readIp, cidr, except, c);
        }
      }
    }
  }

  /** Registration only adds: no entry of the set table is ever changed. */
  lemma ResolveExtends(s: Snapshot, peer: Peer, sets: SetTable)
    ensures Extends(sets, ResolvePeer(s, peer, sets).0)
  {}

  lemma NetworkMeaning(network: string, members: set<IpAddr>, sets: SetTable, final: SetTable, a: IpAddr)
    requires Extends(ResolveNetwork(network, members, sets).0, final)
    ensures var m := ResolveNetwork(network, members, sets).1;
            a in members <==> m.Some? && Denotes(m.value, final, a)
  {}

  /** Set-table soundness: in every later state of the table, the match denotes exactly the
      addresses the peer means, whatever sets were registered before or are registered after. */
  lemma ResolveMeaning(s: Snapshot, peer: Peer, sets: SetTable, final: SetTable, a: IpAddr)
    requires Indexed(s)
    requires Extends(ResolvePeer(s, peer, sets).0, final)
    ensures var m := ResolvePeer(s, peer, sets).1;
            && (PeerSelects(s, peer, a) <==> m.Some? && Denotes(m.value, final, a))
            && (m.Some? ==> WellFormedMatch(m.value) && Closed(m.value, ResolvePeer(s, peer, sets).0))
  {
    if peer.cidr.Some? {
      CidrMeaning(s.readIp, peer.cidr.value, peer.except, final, a);
    } else if LoneNetwork(peer) {
      IndexMembers(s.targets, peer.network.value, a);
      NetworkMeaning(peer.network.value, MembersIn(s.index, peer.network.value), sets, final, a);
    } else if !NoFilters(peer) {
      assert a in IdentityAddrs(peer, s.targets)
        <==> exists t :: t in s.targets && Identifies(peer, t) && a in TargetIps(t);
    }
  }

  /** Distinct network names do share a set name, so the collision branch is live. */
  lemma SetNamesCollide()
    ensures SetName("x-y") == SetName("x_y") && "x-y" != "x_y"
  {
    assert Sanitize("x-y") == "x_y" == Sanitize("x_y");
  }
}
