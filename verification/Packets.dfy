/** Packets as the forward hook sees them. */
module Packets {
  import opened Address
  import opened Policy

  /** Connection-tracking state of a packet. */
  datatype CtState = New | Established | Related | Invalid | Untracked

  /** `dport` is the second 16-bit word of the transport header: the destination port of TCP
      and UDP. `stray` is what loading an address field of the other family would yield. */
  datatype Packet = Packet(src: IpAddr, dst: IpAddr, l4proto: byte, dport: u16, ct: CtState, stray: seq<byte>)

  const IPPROTO_TCP: byte := 6
  const IPPROTO_UDP: byte := 17

  function ProtoNumber(p: Protocol): byte {
    if p == Tcp then IPPROTO_TCP else IPPROTO_UDP
  }

  /** Both addresses of a packet come from the same IP header. */
  predicate SingleFamily(p: Packet) {
    p.src.V4? == p.dst.V4?
  }

  predicate ReplyTraffic(p: Packet) {
    p.ct == Established || p.ct == Related
  }

  predicate Tracked(p: Packet) {
    p.ct == New || ReplyTraffic(p)
  }

  /** A port entry admits its protocol (6 for TCP, 17 for UDP) and number or inclusive range. */
  predicate PortAdmits(port: Port, p: Packet) {
    && p.l4proto == (match port.protocol case Tcp => 6 case Udp => 17)
    && (port.number.Some? ==>
          if port.end.Some? then port.number.value <= p.dport <= port.end.value
          else p.dport == port.number.value)
  }

  /** No ports listed means any protocol and port. */
  predicate PortsAdmit(ports: seq<Port>, p: Packet) {
    ports == [] || exists port :: port in ports && PortAdmits(port, p)
  }

  /** The address of a packet that a direction governs: its source leaving, its destination arriving. */
  function LocalAddr(p: Packet, dir: Direction): IpAddr {
    if dir == Egress then p.src else p.dst
  }

  function PeerAddr(p: Packet, dir: Direction): IpAddr {
    if dir == Egress then p.dst else p.src
  }
}
