/** NFLOG messages: the attribute walk over a packet message, and the configuration message's encoding. */
module NfLog {
  import opened Common
  import opened Address
  import opened Policy
  import opened Bytes
  import opened Netlink

  const NLA_HDRLEN := 4
  const NFULA_TIMESTAMP: u16 := 3
  const NFULA_PAYLOAD: u16 := 9
  const NFULA_PREFIX: u16 := 10

  /** `NFNL_SUBSYS_ULOG << 8`, with message types packet (0) and config (1). */
  const PACKET_MSG: u16 := 0x400
  const CONFIG_MSG: u16 := 0x401

  /** `NLM_F_REQUEST | NLM_F_ACK`. */
  const REQUEST_ACK: u16 := 5

  datatype Attr = Attr(kind: u16, data: seq<byte>)

  predicate SizedAttr(a: Attr) {
    NLA_HDRLEN + |a.data| <= U16_MAX
  }

  function EncodeAttr(a: Attr): (b: seq<byte>)
    requires SizedAttr(a)
    ensures |b| == Align4(NLA_HDRLEN + |a.data|)
  {
    var len := NLA_HDRLEN + |a.data|;
    WriteU16(len) + WriteU16(a.kind) + a.data + Padding(Align4(len) - len)
  }

  predicate AllSizedAttrs(attrs: seq<Attr>) {
    forall i | 0 <= i < |attrs| :: SizedAttr(attrs[i])
  }

  function EncodeAttrs(attrs: seq<Attr>): seq<byte>
    requires AllSizedAttrs(attrs)
  {
    if attrs == [] then [] else EncodeAttr(attrs[0]) + EncodeAttrs(attrs[1..])
  }

  predicate AttrFramed(region: seq<byte>) {
    |region| >= NLA_HDRLEN && NLA_HDRLEN <= ReadU16(region, 0) <= |region|
  }

  /** Every attribute a walker visits in a region. */
  function Attrs(region: seq<byte>): seq<Attr>
    decreases |region|
  {
    if !AttrFramed(region) then [] else
      var len := ReadU16(region, 0);
      [Attr(ReadU16(region, 2), region[NLA_HDRLEN..len])] + Attrs(Rest(region, len))
  }

  lemma FrontAttr(a: Attr, rest: seq<byte>)
    requires SizedAttr(a)
    ensures var region := EncodeAttr(a) + rest;
            && AttrFramed(region) && ReadU16(region, 0) == NLA_HDRLEN + |a.data|
            && ReadU16(region, 2) == a.kind && region[NLA_HDRLEN..NLA_HDRLEN + |a.data|] == a.data
            && Rest(region, NLA_HDRLEN + |a.data|) == rest
  {
    var region := EncodeAttr(a) + rest;
    assert region[..2] == WriteU16(NLA_HDRLEN + |a.data|);
    assert region[2..4] == WriteU16(a.kind);
    assert ReadU16(region, 0) == ReadU16(region[..2], 0);
    assert ReadU16(region, 2) == ReadU16(region[2..4], 0);
  }

  /** The attribute walker recovers exactly the attributes that were encoded. */
  lemma {:induction false} AttrWalkInvertsEncoding(attrs: seq<Attr>)
    requires AllSizedAttrs(attrs)
    ensures Attrs(EncodeAttrs(attrs)) == attrs
  {
    if attrs == [] {
    } else {
      var rest := attrs[1..];
      assert AllSizedAttrs(rest) by { assert forall i | 0 <= i < |rest| :: rest[i] == attrs[i + 1]; }
      FrontAttr(attrs[0], EncodeAttrs(rest));
      AttrWalkInvertsEncoding(rest);
    }
  }

  // ----- what a packet message carries -----

  /** Kernel time of a packet: a signed 64-bit count of seconds, and microseconds cut to 32 bits. */
  datatype Stamp = Stamp(secs: int, micros: nat)

  /** The prefix text (up to its NUL), the packet bytes and the kernel's timestamp, as found so far. */
  datatype Found = Found(prefix: seq<byte>, payload: Option<seq<byte>>, stamp: Option<Stamp>)

  const NOTHING_FOUND := Found([], None, None)

  /** Two big-endian 64-bit numbers. */
  function StampOf(data: seq<byte>): Stamp
    requires |data| >= 16
  {
    var secs, micros := Value(data[..8]), Value(data[8..16]);
    Stamp(if secs < 0x8000_0000_0000_0000 then secs else secs - 0x1_0000_0000_0000_0000, micros % 0x1_0000_0000)
  }

  /** Seconds and microseconds written as two big-endian 64-bit words are read back, whatever follows;
      of the microseconds, the low 32 bits. */
  lemma StampRoundTrip(secs: int, micros: nat, rest: seq<byte>)
    requires -0x8000_0000_0000_0000 <= secs < 0x8000_0000_0000_0000 && micros < 0x1_0000_0000_0000_0000
    ensures StampOf(WriteU64Be(if secs < 0 then secs + 0x1_0000_0000_0000_0000 else secs) + WriteU64Be(micros) + rest)
         == Stamp(secs, micros % 0x1_0000_0000)
  {
    var unsigned := if secs < 0 then secs + 0x1_0000_0000_0000_0000 else secs;
    var data := WriteU64Be(unsigned) + WriteU64Be(micros) + rest;
    assert data[..8] == WriteU64Be(unsigned) && data[8..16] == WriteU64Be(micros);
  }

  function UntilNul(bytes: seq<byte>): (r: seq<byte>)
    ensures r <= bytes && 0 !in r && (|r| < |bytes| ==> bytes[|r|] == 0)
  {
    if bytes == [] || bytes[0] == 0 then [] else [bytes[0]] + UntilNul(bytes[1..])
  }

  function Take(f: Found, a: Attr): Found {
    if a.kind == NFULA_PREFIX then f.(prefix := UntilNul(a.data))
    else if a.kind == NFULA_PAYLOAD then f.(payload := Some(a.data))
    else if a.kind == NFULA_TIMESTAMP && |a.data| >= 16 then f.(stamp := Some(StampOf(a.data)))
    else f
  }

  function TakeAll(f: Found, attrs: seq<Attr>): Found
    decreases |attrs|
  {
    if attrs == [] then f else TakeAll(Take(f, attrs[0]), attrs[1..])
  }

  /** The attribute at an offset. */
  function AttrHere(buf: seq<byte>, off: nat, len: nat): Attr
    requires NLA_HDRLEN <= len && off + len <= |buf|
  {
    Attr(ReadU16(buf, off + 2), buf[off + NLA_HDRLEN..off + len])
  }

  /** The bytes from an offset up to an end, or none. */
  function Region(buf: seq<byte>, off: nat, end: nat): seq<byte>
    requires end <= |buf|
  {
    if off <= end then buf[off..end] else []
  }

  lemma SliceOfSlice<T>(s: seq<T>, a: nat, b: nat, c: nat, d: nat)
    requires a <= b <= |s| && c <= d <= b - a
    ensures s[a..b][c..d] == s[a + c..a + d]
  {
    var inner := s[a..b];
    var x, y := inner[c..d], s[a + c..a + d];
    assert |x| == |y|;
    forall i | 0 <= i < |x| ensures x[i] == y[i] {
      assert x[i] == inner[c + i] == s[a + (c + i)];
      assert y[i] == s[(a + c) + i];
    }
  }

  lemma AttrAt(buf: seq<byte>, off: nat, end: nat)
    requires end <= |buf|
    ensures AttrFramed(Region(buf, off, end)) <==>
      off + NLA_HDRLEN <= end && NLA_HDRLEN <= ReadU16(buf, off) && off + ReadU16(buf, off) <= end
    ensures AttrFramed(Region(buf, off, end)) ==>
      var region, len := Region(buf, off, end), ReadU16(buf, off);
      && ReadU16(region, 0) == len
      && Attr(ReadU16(region, 2), region[NLA_HDRLEN..len]) == AttrHere(buf, off, len)
      && Rest(region, len) == Region(buf, off + Align4(len), end)
  {
    if AttrFramed(Region(buf, off, end)) {
      var len := ReadU16(buf, off);
      SliceOfSlice(buf, off, end, NLA_HDRLEN, len);
      if off + Align4(len) <= end { SliceOfSlice(buf, off, end, Align4(len), end - off); }
    }
  }

  /** The next attribute lies within the region. */
  predicate AttrFits(buf: seq<byte>, off: nat, end: nat)
    requires end <= |buf|
  {
    off + NLA_HDRLEN <= end && NLA_HDRLEN <= ReadU16(buf, off) && off + ReadU16(buf, off) <= end
  }

  lemma AttrsEnd(buf: seq<byte>, off: nat, end: nat)
    requires end <= |buf| && !AttrFits(buf, off, end)
    ensures Attrs(Region(buf, off, end)) == []
  {
    AttrAt(buf, off, end);
  }

  lemma AttrsFront(region: seq<byte>)
    requires AttrFramed(region)
    ensures var len := ReadU16(region, 0);
            Attrs(region) == [Attr(ReadU16(region, 2), region[NLA_HDRLEN..len])] + Attrs(Rest(region, len))
  {}

  lemma AttrsStep(buf: seq<byte>, off: nat, end: nat, next: nat)
    requires end <= |buf| && AttrFits(buf, off, end) && next == off + Align4(ReadU16(buf, off))
    ensures Attrs(Region(buf, off, end)) == [AttrHere(buf, off, ReadU16(buf, off))] + Attrs(Region(buf, next, end))
  {
    hide Align4, Rest, Attrs, Region;
    AttrAt(buf, off, end);
    AttrsFront(Region(buf, off, end));
  }

  lemma TakeAllNone(f: Found)
    ensures TakeAll(f, []) == f
  {}

  lemma TakeAllStep(f: Found, a: Attr, rest: seq<Attr>)
    ensures TakeAll(f, [a] + rest) == TakeAll(Take(f, a), rest)
  {
    assert ([a] + rest)[1..] == rest;
  }

  /** Reads the attributes between two offsets: for any bytes the walk stays in bounds, strictly
      advances, and takes each attribute of the region. */
  method WalkAttrs(buf: seq<byte>, start: nat, end: nat) returns (f: Found)
    requires end <= |buf|
    ensures f == TakeAll(NOTHING_FOUND, Attrs(Region(buf, start, end)))
  {
    hide Align4, Rest, Attrs, Region, Take, TakeAll, ReadU16;
    var off := start;
    f := NOTHING_FOUND;
    while off + NLA_HDRLEN <= end
      invariant TakeAll(f, Attrs(Region(buf, off, end))) == TakeAll(NOTHING_FOUND, Attrs(Region(buf, start, end)))
      decreases end - off
    {
      var len := ReadU16(buf, off);
      if len < NLA_HDRLEN || off + len > end {
        break;
      }
      AttrsStep(buf, off, end, off + Align4(len));
      TakeAllStep(f, AttrHere(buf, off, len), Attrs(Region(buf, off + Align4(len), end)));
      f := Take(f, AttrHere(buf, off, len));
      off := off + Align4(len);
    }
    AttrsEnd(buf, off, end);
    TakeAllNone(f);
  }

  /** Reads the attributes of the message at `msgOff`, skipping its header and the nfgenmsg. */
  method ParseAttrs(buf: seq<byte>, msgOff: nat, msgLen: nat) returns (f: Found)
    requires msgOff <= |buf| && Framed(buf[msgOff..]) && msgLen == FrontLen(buf[msgOff..])
    ensures f == FoundIn(Front(buf[msgOff..]))
  {
    hide Align4, Rest, Attrs, TakeAll;
    ParsedInPlace(buf, msgOff, msgOff + msgLen);
    f := WalkAttrs(buf, msgOff + NLMSG_HDRLEN + 4, msgOff + msgLen);
  }

  /** Data of the last attribute of a kind. */
  function LastOf(attrs: seq<Attr>, kind: u16): Option<seq<byte>> {
    if attrs == [] then None
    else if attrs[|attrs| - 1].kind == kind then Some(attrs[|attrs| - 1].data)
    else LastOf(attrs[..|attrs| - 1], kind)
  }

  /** The last timestamp attribute (kind 3) that is long enough. */
  function LastStamp(attrs: seq<Attr>): Option<Stamp> {
    if attrs == [] then None else
      var last := attrs[|attrs| - 1];
      if last.kind == 3 && |last.data| >= 16 then Some(StampOf(last.data))
      else LastStamp(attrs[..|attrs| - 1])
  }

  lemma {:induction false} TakeAllAppend(f: Found, attrs: seq<Attr>, last: Attr)
    ensures TakeAll(f, attrs + [last]) == Take(TakeAll(f, attrs), last)
    decreases |attrs|
  {
    if attrs == [] {
      assert [last][1..] == [];
    } else {
      assert (attrs + [last])[1..] == attrs[1..] + [last];
      TakeAllAppend(Take(f, attrs[0]), attrs[1..], last);
    }
  }

  /** Later attributes override earlier ones: the last payload (kind 9), timestamp and prefix (kind 10) are kept. */
  lemma {:induction false} LastAttributesWin(attrs: seq<Attr>)
    ensures var f := TakeAll(NOTHING_FOUND, attrs);
            && f.payload == LastOf(attrs, 9)
            && f.stamp == LastStamp(attrs)
            && f.prefix == match LastOf(attrs, 10) case None => [] case Some(d) => UntilNul(d)
  {
    hide StampOf, UntilNul;
    if attrs == [] {
    } else {
      var init, last := attrs[..|attrs| - 1], attrs[|attrs| - 1];
      assert attrs == init + [last];
      LastAttributesWin(init);
      TakeAllAppend(NOTHING_FOUND, init, last);
    }
  }

  /** What a packet message carries, by its content: attributes start four bytes into the payload. */
  function FoundIn(m: Message): Found {
    TakeAll(NOTHING_FOUND, Attrs(if |m.payload| >= 4 then m.payload[4..] else []))
  }

  lemma AttrRegion(buf: seq<byte>, off: nat, end: nat)
    requires off + NLMSG_HDRLEN <= end <= |buf|
    ensures var payload := buf[off + NLMSG_HDRLEN..end];
            Region(buf, off + NLMSG_HDRLEN + 4, end) == if |payload| >= 4 then payload[4..] else []
  {
    var payload := buf[off + NLMSG_HDRLEN..end];
    if |payload| >= 4 { SliceOfSlice(buf, off + NLMSG_HDRLEN, end, 4, |payload|); }
  }

  lemma PayloadAt(buf: seq<byte>, off: nat, end: nat)
    requires off <= |buf| && Framed(buf[off..]) && end == off + FrontLen(buf[off..])
    ensures off + NLMSG_HDRLEN <= end <= |buf| && ReadU32(buf, off) == end - off
    ensures Front(buf[off..]).payload == buf[off + NLMSG_HDRLEN..end]
  {
    SliceOfSlice(buf, off, |buf|, NLMSG_HDRLEN, end - off);
  }

  /** Parsing a message in place reads what the message carries. */
  lemma ParsedInPlace(buf: seq<byte>, off: nat, end: nat)
    requires off <= |buf| && Framed(buf[off..]) && end == off + FrontLen(buf[off..])
    ensures Attrs(Region(buf, off + NLMSG_HDRLEN + 4, end))
         == Attrs(if |Front(buf[off..]).payload| >= 4 then Front(buf[off..]).payload[4..] else [])
  {
    hide Align4, Rest, Attrs;
    PayloadAt(buf, off, end);
    AttrRegion(buf, off, end);
  }

  // ----- the configuration message -----

  function ConfigMessage(group: u16, attr: Attr, seqNo: u32): (m: Message)
    requires SizedAttr(attr)
    ensures Sized(m)
  {
    Message(CONFIG_MSG, REQUEST_ACK, seqNo, 0, [0, 0] + WriteU16Be(group) + EncodeAttr(attr))
  }

  /** Appends zero bytes up to a length. */
  method PadTo(bytes: seq<byte>, total: nat) returns (msg: seq<byte>)
    requires |bytes| <= total
    ensures msg == bytes + Padding(total - |bytes|)
  {
    msg := bytes;
    while |msg| < total
      invariant |bytes| <= |msg| <= total && msg == bytes + Padding(|msg| - |bytes|)
    {
      assert Padding(|msg| - |bytes|) + [0] == Padding(|msg| + 1 - |bytes|);
      msg := msg + [0];
    }
  }

  lemma ConfigBytes(group: u16, attr: Attr, seqNo: u32)
    requires SizedAttr(attr)
    ensures var m, attrLen := ConfigMessage(group, attr, seqNo), NLA_HDRLEN + |attr.data|;
            Encode(m) == Header(m) + ([0, 0] + WriteU16Be(group))
                         + (WriteU16(attrLen) + WriteU16(attr.kind) + attr.data) + Padding(Align4(attrLen) - attrLen)
  {
    AlignedEncoding(ConfigMessage(group, attr, seqNo));
  }

  lemma AlignedEncoding(m: Message)
    requires Sized(m) && |m.payload| % 4 == 0
    ensures Encode(m) == Header(m) + m.payload
  {
    assert Align4(NLMSG_HDRLEN + |m.payload|) == NLMSG_HDRLEN + |m.payload|;
    assert Padding(0) == [];
  }

  /** Builds a configuration message field by field, then pads it. */
  method BuildConfig(group: u16, kind: u16, data: seq<byte>, seqNo: u32) returns (msg: seq<byte>)
    requires SizedAttr(Attr(kind, data))
    ensures msg == Encode(ConfigMessage(group, Attr(kind, data), seqNo))
  {
    var attrLen := NLA_HDRLEN + |data|;
    var total := NLMSG_HDRLEN + 4 + Align4(attrLen);
    msg := WriteU32(total) + WriteU16(CONFIG_MSG) + WriteU16(REQUEST_ACK) + WriteU32(seqNo) + WriteU32(0);
    assert msg == Header(ConfigMessage(group, Attr(kind, data), seqNo));
    msg := msg + ([0, 0] + WriteU16Be(group));
    msg := msg + (WriteU16(attrLen) + WriteU16(kind) + data);
    ConfigBytes(group, Attr(kind, data), seqNo);
    msg := PadTo(msg, total);
  }

  lemma OneAttr(attr: Attr)
    requires SizedAttr(attr)
    ensures Attrs(EncodeAttr(attr)) == [attr]
  {
    assert [attr][1..] == [];
    assert EncodeAttrs([attr]) == EncodeAttr(attr) + EncodeAttrs([]);
    assert EncodeAttr(attr) + [] == EncodeAttr(attr);
    AttrWalkInvertsEncoding([attr]);
  }

  lemma OneMessage(m: Message)
    requires Sized(m)
    ensures Messages(Encode(m)) == [m]
  {
    assert [m][1..] == [];
    assert EncodeAll([m]) == Encode(m) + EncodeAll([]);
    assert Encode(m) + [] == Encode(m);
    WalkInvertsEncoding([m]);
  }

  /** A receiver walking the configuration message finds one message of type 0x401, a request to be
      acknowledged (flags 5), for the group, with the one attribute asked for. */
  lemma ConfigRoundTrip(group: u16, attr: Attr, seqNo: u32)
    requires SizedAttr(attr)
    ensures var m := ConfigMessage(group, attr, seqNo);
            && Messages(Encode(m)) == [m] && Attrs(m.payload[4..]) == [attr] && ReadU16Be(m.payload, 2) == group
            && m.kind == 0x401 && m.flags == 5 && m.seqNo == seqNo && m.pid == 0 && m.payload[..2] == [0, 0]
  {
    var m := ConfigMessage(group, attr, seqNo);
    assert m.payload[2..4] == WriteU16Be(group);
    assert ReadU16Be(m.payload, 2) == ReadU16Be(m.payload[2..4], 0);
    OneMessage(m);
    OneAttr(attr);
    assert m.payload[4..] == EncodeAttr(attr);
  }
}
