/** The documented behaviour, written on the fields of containers, policies and packets alone: nothing
    here uses the compiler's tests. */
module Documented {
  import opened Common
  import opened Address
  import opened Policy
  import opened Packets
  import opened Compile

  /** Every pair the selector asks for is among the labels. */
  ghost predicate Selects(selector: Labels, labels: Labels) {
    selector.Items <= labels.Items
  }

  ghost predicate HasAddress(t: Target, a: IpAddr) {
    exists n :: n in t.networks && a in t.networks[n]
  }

  /** The label `<prefix>.networkpolicy.<name>` of the container holds the policy. */
  ghost predicate Carries(cfg: Config, carrier: Target, g: NamedPolicy) {
    exists text ::
      (cfg.labelPrefix + ".networkpolicy." + g.name, text) in carrier.labels.Items
      && cfg.readPolicy(text) == Some(g.policy)
  }

  /** A policy without a selector governs its carrier, or every container when it is global;
      one with a selector governs the containers it selects. */
  ghost predicate Governs(cfg: Config, targets: seq<Target>, t: Target, g: NamedPolicy) {
    match g.policy.endpointSelector
    case None =>
      g in cfg.globals || exists c :: c in targets && Carries(cfg, c, g) && c.name == t.name
    case Some(selector) =>
      Selects(selector, t.labels) && (g in cfg.globals || exists c :: c in targets && Carries(cfg, c, g))
  }

  /** The directions a policy lists; if it lists none, those it has rules for. */
  ghost predicate Isolates(np: NetworkPolicy, dir: Direction) {
    match dir
    case Egress => Egress in np.policyTypes || (|np.policyTypes| == 0 && |np.egress| > 0)
    case Ingress => Ingress in np.policyTypes || (|np.policyTypes| == 0 && |np.ingress| > 0)
  }

  ghost predicate IsolatedBy(cfg: Config, targets: seq<Target>, t: Target, dir: Direction, g: NamedPolicy) {
    Governs(cfg, targets, t, g) && Isolates(g.policy, dir)
  }

  ghost predicate IsIsolated(cfg: Config, targets: seq<Target>, t: Target, dir: Direction) {
    exists g :: IsolatedBy(cfg, targets, t, dir, g)
  }

  /** The text spells a block whose first `prefix` bits the address has. */
  ghost predicate InText(readIp: IpReader, text: string, a: IpAddr) {
    exists addr, digits, c :: Spells(readIp, text, addr, digits, c) && AgreeOn(c.addr, a, c.prefix)
  }

  /** A container that satisfies every identity field that is set. */
  ghost predicate Fits(q: Peer, t: Target) {
    && (match q.container case None => true case Some(name) => t.name == name)
    && (match q.network case None => true case Some(name) => name in t.networks)
    && (match q.selector case None => true case Some(selector) => Selects(selector, t.labels))
  }

  /** The addresses a peer stands for: its block without the excepts; or every address when no
      field is set; or a lone network's own addresses; or all addresses of the containers that fit. */
  ghost predicate PeerIs(readIp: IpReader, targets: seq<Target>, q: Peer, a: IpAddr) {
    match q.cidr
    case Some(text) => InText(readIp, text, a) && forall e :: e in q.except ==> !InText(readIp, e, a)
    case None =>
      match (q.container, q.network, q.selector)
      case (None, None, None) => true
      case (None, Some(name), None) => exists t :: t in targets && name in t.networks && a in t.networks[name]
      case (_, _, _) => exists t :: t in targets && HasAddress(t, a) && Fits(q, t)
  }

  /** Protocol 6 is TCP, 17 is UDP; the number is any, the one, or within the inclusive range. */
  ghost predicate PortIs(port: Port, p: Packet) {
    && (port.protocol == Tcp ==> p.l4proto == 6)
    && (port.protocol == Udp ==> p.l4proto == 17)
    && match (port.number, port.end)
       case (None, _) => true
       case (Some(n), None) => p.dport == n
       case (Some(lo), Some(hi)) => lo <= p.dport && p.dport <= hi
  }

  /** No peers means any address, no ports means any port. */
  ghost predicate Takes(readIp: IpReader, targets: seq<Target>, r: PolicyRule, far: IpAddr, p: Packet) {
    && (|r.peers| > 0 ==> exists q :: q in r.peers && PeerIs(readIp, targets, q, far))
    && (|r.ports| > 0 ==> exists port :: port in r.ports && PortIs(port, p))
  }

  ghost function Near(p: Packet, dir: Direction): IpAddr {
    match dir
    case Egress => p.src
    case Ingress => p.dst
  }

  /** Some rule of the policy for the direction, with this action, takes the packet. */
  ghost predicate PolicySays(
      readIp: IpReader, targets: seq<Target>, np: NetworkPolicy, dir: Direction, action: RuleAction, p: Packet)
  {
    match dir
    case Egress => exists r :: r in np.egress && r.action == action && Takes(readIp, targets, r, p.dst, p)
    case Ingress => exists r :: r in np.ingress && r.action == action && Takes(readIp, targets, r, p.src, p)
  }

  /** Some policy that isolates the container says so. */
  ghost predicate Says(
      cfg: Config, targets: seq<Target>, t: Target, dir: Direction, action: RuleAction, p: Packet)
  {
    exists g :: IsolatedBy(cfg, targets, t, dir, g) && PolicySays(cfg.readIp, targets, g.policy, dir, action, p)
  }

  ghost predicate Holds(cfg: Config, targets: seq<Target>, dir: Direction, t: Target, a: IpAddr) {
    HasAddress(t, a) && IsIsolated(cfg, targets, t, dir)
  }

  /** The first container in the list that has the address and is isolated. */
  ghost predicate FirstHolder(cfg: Config, targets: seq<Target>, dir: Direction, i: nat, a: IpAddr) {
    && i < |targets|
    && Holds(cfg, targets, dir, targets[i], a)
    && forall j | 0 <= j < i :: !Holds(cfg, targets, dir, targets[j], a)
  }

  /** That container is told to allow the packet, and not told to drop it. */
  ghost predicate HolderPermits(cfg: Config, targets: seq<Target>, dir: Direction, p: Packet) {
    forall i: nat :: FirstHolder(cfg, targets, dir, i, Near(p, dir)) ==>
      && Says(cfg, targets, targets[i], dir, Allow, p)
      && !Says(cfg, targets, targets[i], dir, RuleAction.Drop, p)
  }

  /** Replies pass; anything else must be permitted at both ends. */
  ghost predicate Passes(cfg: Config, targets: seq<Target>, p: Packet) {
    || p.ct == Established
    || p.ct == Related
    || (HolderPermits(cfg, targets, Egress, p) && HolderPermits(cfg, targets, Ingress, p))
  }
}
