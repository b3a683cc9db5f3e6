/** Walking netlink messages in raw buffers, and draining the kernel's acknowledgements of a batch. */
module Netlink {
  import opened Address
  import opened Policy
  import opened Bytes

  const NLMSG_HDRLEN := 16
  const NLMSG_ERROR: u16 := 2
  const NLMSG_DONE: u16 := 3

  /** A message: header fields and payload (section 2.3.2 of RFC 3549). */
  datatype Message = Message(kind: u16, flags: u16, seqNo: u32, pid: u32, payload: seq<byte>)

  predicate Sized(m: Message) {
    NLMSG_HDRLEN + |m.payload| < 0x1_0000_0000
  }

  function Header(m: Message): (h: seq<byte>)
    requires Sized(m)
    ensures |h| == NLMSG_HDRLEN
  {
    WriteU32(NLMSG_HDRLEN + |m.payload|) + WriteU16(m.kind) + WriteU16(m.flags) + WriteU32(m.seqNo) + WriteU32(m.pid)
  }

  /** A message on the wire, padded to a multiple of four bytes. */
  function Encode(m: Message): (b: seq<byte>)
    requires Sized(m)
    ensures |b| == Align4(NLMSG_HDRLEN + |m.payload|)
  {
    var len := NLMSG_HDRLEN + |m.payload|;
    Header(m) + m.payload + Padding(Align4(len) - len)
  }

  predicate AllSized(ms: seq<Message>) {
    forall i | 0 <= i < |ms| :: Sized(ms[i])
  }

  function EncodeAll(ms: seq<Message>): seq<byte>
    requires AllSized(ms)
  {
    if ms == [] then [] else Encode(ms[0]) + EncodeAll(ms[1..])
  }

  /** The message at the front of a buffer is there in full. */
  predicate Framed(buf: seq<byte>) {
    |buf| >= NLMSG_HDRLEN && NLMSG_HDRLEN <= ReadU32(buf, 0) <= |buf|
  }

  function FrontLen(buf: seq<byte>): (n: nat)
    requires Framed(buf)
    ensures NLMSG_HDRLEN <= n <= |buf|
  {
    ReadU32(buf, 0)
  }

  function Front(buf: seq<byte>): Message
    requires Framed(buf)
  {
    Message(ReadU16(buf, 4), ReadU16(buf, 6), ReadU32(buf, 8), ReadU32(buf, 12), buf[NLMSG_HDRLEN..FrontLen(buf)])
  }

  /** Every message a walker visits: it stops at the first length that is too short or runs past the end. */
  function Messages(buf: seq<byte>): seq<Message>
    decreases |buf|
  {
    if !Framed(buf) then [] else [Front(buf)] + Messages(Rest(buf, FrontLen(buf)))
  }

  // ----- walking inverts encoding -----

  lemma FrontOfEncoded(m: Message, rest: seq<byte>)
    requires Sized(m)
    ensures var buf := Encode(m) + rest;
            Framed(buf) && Front(buf) == m && FrontLen(buf) == NLMSG_HDRLEN + |m.payload|
            && Rest(buf, FrontLen(buf)) == rest
  {
    var h := Header(m);
    var buf := Encode(m) + rest;
    assert buf[..16] == h;
    assert h[..4] == WriteU32(NLMSG_HDRLEN + |m.payload|);
    assert h[4..6] == WriteU16(m.kind);
    assert h[6..8] == WriteU16(m.flags);
    assert h[8..12] == WriteU32(m.seqNo);
    assert h[12..16] == WriteU32(m.pid);
    assert ReadU32(buf, 0) == ReadU32(h[..4], 0);
    assert ReadU16(buf, 4) == ReadU16(h[4..6], 0);
    assert ReadU16(buf, 6) == ReadU16(h[6..8], 0);
    assert ReadU32(buf, 8) == ReadU32(h[8..12], 0);
    assert ReadU32(buf, 12) == ReadU32(h[12..16], 0);
    assert buf[16..16 + |m.payload|] == m.payload;
  }

  /** The walker recovers exactly the list of messages that was encoded. */
  lemma {:induction false} WalkInvertsEncoding(ms: seq<Message>)
    requires AllSized(ms)
    ensures Messages(EncodeAll(ms)) == ms
  {
    if ms == [] {
    } else {
      assert AllSized(ms[1..]);
      FrontOfEncoded(ms[0], EncodeAll(ms[1..]));
      WalkInvertsEncoding(ms[1..]);
    }
  }

  // ----- the terminating sequence number -----

  function MaxSeq(ms: seq<Message>): u32 {
    if ms == [] then 0 else
      var rest := MaxSeq(ms[1..]);
      if ms[0].seqNo > rest then ms[0].seqNo else rest
  }

  function Max(a: u32, b: u32): u32 {
    if a > b then a else b
  }

  /** Reading at an offset is reading the front of what is left. */
  lemma FrameAt(buf: seq<byte>, off: nat)
    ensures Framed(From(buf, off)) <==>
      off + NLMSG_HDRLEN <= |buf| && NLMSG_HDRLEN <= ReadU32(buf, off) && off + ReadU32(buf, off) <= |buf|
    ensures Framed(From(buf, off)) ==>
      && FrontLen(From(buf, off)) == ReadU32(buf, off)
      && Front(From(buf, off)).kind == ReadU16(buf, off + 4)
      && Front(From(buf, off)).seqNo == ReadU32(buf, off + 8)
      && Rest(From(buf, off), ReadU32(buf, off)) == From(buf, off + Align4(ReadU32(buf, off)))
  {
    if Framed(From(buf, off)) { RestAt(buf, off, ReadU32(buf, off)); }
  }

  /** One step of the walk, at a raw offset. */
  lemma MaxSeqStep(buf: seq<byte>, off: nat)
    ensures var m := MaxSeq(Messages(From(buf, off)));
            if Framed(From(buf, off))
            then m == Max(ReadU32(buf, off + 8), MaxSeq(Messages(From(buf, off + Align4(ReadU32(buf, off))))))
            else m == 0
  {
    FrameAt(buf, off);
    var here := From(buf, off);
    if Framed(here) {
      var rest := Messages(Rest(here, FrontLen(here)));
      assert Messages(here) == [Front(here)] + rest;
      assert Messages(here)[1..] == rest;
    }
  }

  /** Any buffer: the walk stays in bounds, strictly advances, and yields the largest sequence number less one. */
  method TerminalSeq(buf: seq<byte>) returns (terminal: u32)
    ensures var m := MaxSeq(Messages(buf)); terminal == if m == 0 then 0 else m - 1
  {
    hide Align4, Rest, Messages;
    var off: nat := 0;
    var max: u32 := 0;
    assert From(buf, 0) == buf;
    while off + NLMSG_HDRLEN <= |buf|
      invariant Max(max, MaxSeq(Messages(From(buf, off)))) == MaxSeq(Messages(buf))
      decreases |buf| - off
    {
      FrameAt(buf, off);
      MaxSeqStep(buf, off);
      var len := ReadU32(buf, off);
      if len < NLMSG_HDRLEN || off + len > |buf| {
        break;
      }
      max := Max(max, ReadU32(buf, off + 8));
      off := off + Align4(len);
    }
    MaxSeqStep(buf, off);
    terminal := if max == 0 then 0 else max - 1;
  }

  lemma {:induction false} MaxOfNumbered(ms: seq<Message>, first: nat)
    requires forall i | 0 <= i < |ms| :: ms[i].seqNo == first + i
    ensures ms != [] ==> MaxSeq(ms) == first + |ms| - 1
    ensures ms == [] ==> MaxSeq(ms) == 0
  {
    if ms == [] {
    } else {
      forall i | 0 <= i < |ms[1..]| ensures ms[1..][i].seqNo == first + 1 + i {
        assert ms[1..][i] == ms[i + 1];
      }
      MaxOfNumbered(ms[1..], first + 1);
    }
  }

  /** A finalized batch is numbered 0 (begin), 1..K (objects), K+1 (end); the terminal number is K. */
  lemma TerminalOfBatch(ms: seq<Message>, k: nat)
    requires AllSized(ms) && |ms| == k + 2 && forall i | 0 <= i < |ms| :: ms[i].seqNo == i
    ensures MaxSeq(Messages(EncodeAll(ms))) - 1 == k
  {
    WalkInvertsEncoding(ms);
    MaxOfNumbered(ms, 0);
  }

  // ----- scanning acknowledgements -----

  datatype Scan = Done | More | Failed(errno: int)

  /** One left-to-right scan of the bytes, as the code does it: an error number is read where it
      would lie, provided the buffer reaches that far. */
  function ScanBytes(buf: seq<byte>, terminal: nat): Scan
    decreases |buf|
  {
    if !Framed(buf) then More
    else if Front(buf).kind == NLMSG_DONE then Done
    else if Front(buf).kind == NLMSG_ERROR && NLMSG_HDRLEN + 4 <= |buf| && ReadI32(buf, NLMSG_HDRLEN) != 0
    then Failed(ReadI32(buf, NLMSG_HDRLEN))
    else if Front(buf).seqNo >= terminal then Done
    else ScanBytes(Rest(buf, FrontLen(buf)), terminal)
  }

  lemma ErrnoAt(buf: seq<byte>, off: nat)
    requires off + NLMSG_HDRLEN + 4 <= |buf|
    ensures ReadI32(buf, off + NLMSG_HDRLEN) == ReadI32(From(buf, off), NLMSG_HDRLEN)
  {}

  lemma ScanBytesAt(buf: seq<byte>, off: nat, terminal: nat)
    ensures ScanBytes(From(buf, off), terminal)
         == if off + NLMSG_HDRLEN > |buf| then More else
            var len := ReadU32(buf, off);
            if len < NLMSG_HDRLEN || off + len > |buf| then More
            else if ReadU16(buf, off + 4) == NLMSG_DONE then Done
            else if ReadU16(buf, off + 4) == NLMSG_ERROR && off + NLMSG_HDRLEN + 4 <= |buf|
                    && ReadI32(buf, off + NLMSG_HDRLEN) != 0 then Failed(ReadI32(buf, off + NLMSG_HDRLEN))
            else if ReadU32(buf, off + 8) >= terminal then Done
            else ScanBytes(From(buf, off + Align4(len)), terminal)
  {
    FrameAt(buf, off);
    if off + NLMSG_HDRLEN + 4 <= |buf| { ErrnoAt(buf, off); }
  }

  /** Any buffer: the loop over offsets returns what the scan of its bytes returns. */
  method ScanAcks(buf: seq<byte>, terminal: nat) returns (r: Scan)
    ensures r == ScanBytes(buf, terminal)
  {
    hide Align4, Rest, ScanBytes;
    var off: nat := 0;
    assert From(buf, 0) == buf;
    while off + NLMSG_HDRLEN <= |buf|
      invariant ScanBytes(From(buf, off), terminal) == ScanBytes(buf, terminal)
      decreases |buf| - off
    {
      ScanBytesAt(buf, off, terminal);
      var len := ReadU32(buf, off);
      if len < NLMSG_HDRLEN || off + len > |buf| {
        break;
      }
      var kind := ReadU16(buf, off + 4);
      if kind == NLMSG_DONE {
        return Done;
      }
      if kind == NLMSG_ERROR && off + NLMSG_HDRLEN + 4 <= |buf| {
        var errno := ReadI32(buf, off + NLMSG_HDRLEN);
        if errno != 0 {
          return Failed(errno);
        }
      }
      if ReadU32(buf, off + 8) >= terminal {
        return Done;
      }
      off := off + Align4(len);
    }
    ScanBytesAt(buf, off, terminal);
    r := More;
  }

  /** The error number a message carries: zero unless it is an error message. */
  function Errno(m: Message): int {
    if m.kind == NLMSG_ERROR && |m.payload| >= 4 then ReadI32(m.payload, 0) else 0
  }

  /** An error message (type 2) is at least 20 bytes long. */
  predicate WellFormedMsg(m: Message) {
    Sized(m) && (m.kind == 2 ==> |m.payload| >= 4)
  }

  predicate AllWellFormed(ms: seq<Message>) {
    forall i | 0 <= i < |ms| :: WellFormedMsg(ms[i])
  }

  /** A message of type 3 (done), or one numbered at or past the terminal. */
  predicate Stops(m: Message, terminal: nat) {
    m.kind == 3 || m.seqNo >= terminal
  }

  /** Not an error message, or one whose error number is four zero bytes. */
  predicate Clean(m: Message) {
    m.kind == 2 && |m.payload| >= 4 ==> forall i | 0 <= i < 4 :: m.payload[i] == 0
  }

  lemma CleanExactly(m: Message)
    ensures Clean(m) <==> Errno(m) == 0
  {
    if |m.payload| >= 4 { ZeroBytes(m.payload, 0); }
  }

  /** The meaning of an acknowledgement stream: the first failing or stopping message decides. */
  function ScanMessages(ms: seq<Message>, terminal: nat): Scan {
    if ms == [] then More
    else if Errno(ms[0]) != 0 then Failed(Errno(ms[0]))
    else if Stops(ms[0], terminal) then Done
    else ScanMessages(ms[1..], terminal)
  }

  lemma {:induction false} ScanOfEncoded(ms: seq<Message>, terminal: nat)
    requires AllWellFormed(ms)
    ensures AllSized(ms) && ScanBytes(EncodeAll(ms), terminal) == ScanMessages(ms, terminal)
  {
    if ms == [] {
    } else {
      var m, rest := ms[0], ms[1..];
      assert forall i | 0 <= i < |rest| :: rest[i] == ms[i + 1];
      ScanOfEncoded(rest, terminal);
      FrontOfEncoded(m, EncodeAll(rest));
      if m.kind == NLMSG_ERROR { ErrnoOfEncoded(m, EncodeAll(rest)); }
      hide Encode, Front, FrontLen, Framed, Rest, ReadI32;
      assert EncodeAll(ms) == Encode(m) + EncodeAll(rest);
    }
  }

  lemma ErrnoOfEncoded(m: Message, rest: seq<byte>)
    requires Sized(m) && |m.payload| >= 4
    ensures |Encode(m) + rest| >= NLMSG_HDRLEN + 4
    ensures ReadI32(Encode(m) + rest, NLMSG_HDRLEN) == ReadI32(m.payload, 0)
  {
    var buf := Encode(m) + rest;
    assert forall i | 0 <= i < 4 :: buf[NLMSG_HDRLEN + i] == m.payload[i];
  }

  /** A message that stops the scan, with no error in it or before it. */
  predicate Acknowledged(ms: seq<Message>, terminal: nat) {
    exists i :: 0 <= i < |ms| && Stops(ms[i], terminal) && forall j :: 0 <= j <= i ==> Clean(ms[j])
  }

  lemma {:induction false} ScanSucceedsExactly(ms: seq<Message>, terminal: nat)
    ensures ScanMessages(ms, terminal) == Done <==> Acknowledged(ms, terminal)
  {
    hide Clean, Errno, Stops;
    if ms == [] {
    } else {
      CleanExactly(ms[0]);
      ScanSucceedsExactly(ms[1..], terminal);
      if ScanMessages(ms, terminal) == Done {
        if Stops(ms[0], terminal) {
          assert Stops(ms[0], terminal) && forall j :: 0 <= j <= 0 ==> Clean(ms[j]);
        } else {
          var rest := ms[1..];
          var i :| 0 <= i < |rest| && Stops(rest[i], terminal) && forall j :: 0 <= j <= i ==> Clean(rest[j]);
          forall j | 0 <= j <= i + 1 ensures Clean(ms[j]) {
            if j > 0 { assert rest[j - 1] == ms[j]; }
          }
          assert Stops(ms[i + 1], terminal);
        }
      }
      if i :| 0 <= i < |ms| && Stops(ms[i], terminal) && forall j :: 0 <= j <= i ==> Clean(ms[j]) {
        if i > 0 {
          assert ms[1..][i - 1] == ms[i];
          forall j | 0 <= j <= i - 1 ensures Clean(ms[1..][j]) { assert ms[1..][j] == ms[j + 1]; }
        }
      }
    }
  }

  // ----- draining -----

  /** What one receive call returns; an empty read is end of file. */
  datatype Receive = Bytes(data: seq<byte>) | ReceiveError

  datatype DrainResult = Success | Rejected(errno: int) | ReceiveFailed | Waiting

  /** Receives until one of them decides; `Waiting` when the listed receives do not. */
  function Drained(receives: seq<Receive>, terminal: nat): DrainResult {
    if receives == [] then Waiting
    else if receives[0].ReceiveError? then ReceiveFailed
    else if receives[0].data == [] then Success
    else match ScanBytes(receives[0].data, terminal)
      case Done => Success
      case Failed(e) => Rejected(e)
      case More => Drained(receives[1..], terminal)
  }

  method DrainAcks(receives: seq<Receive>, terminal: nat) returns (r: DrainResult)
    ensures r == Drained(receives, terminal)
  {
    for i := 0 to |receives|
      invariant Drained(receives[i..], terminal) == Drained(receives, terminal)
    {
      assert receives[i..][0] == receives[i] && receives[i..][1..] == receives[i + 1..];
      if receives[i].ReceiveError? {
        return ReceiveFailed;
      }
      if |receives[i].data| == 0 {
        return Success;
      }
      var s := ScanAcks(receives[i].data, terminal);
      match s
      case Done => return Success;
      case Failed(e) => return Rejected(e);
      case More =>
    }
    r := Waiting;
  }

  function Concat(groups: seq<seq<Message>>): seq<Message> {
    if groups == [] then [] else groups[0] + Concat(groups[1..])
  }

  predicate ValidGroups(groups: seq<seq<Message>>) {
    forall i | 0 <= i < |groups| :: groups[i] != [] && AllWellFormed(groups[i])
  }

  /** Each receive delivers some whole messages. */
  function Receives(groups: seq<seq<Message>>): (rs: seq<Receive>)
    requires ValidGroups(groups)
    ensures |rs| == |groups|
  {
    seq(|groups|, i requires 0 <= i < |groups| =>
      assert AllSized(groups[i]) by { assert forall j | 0 <= j < |groups[i]| :: WellFormedMsg(groups[i][j]); }
      Bytes(EncodeAll(groups[i])))
  }

  lemma {:induction false} ScanAppend(a: seq<Message>, b: seq<Message>, terminal: nat)
    ensures ScanMessages(a + b, terminal)
         == var first := ScanMessages(a, terminal); if first == More then ScanMessages(b, terminal) else first
  {
    if a == [] {
      assert a + b == b;
    } else {
      assert (a + b)[1..] == a[1..] + b;
      ScanAppend(a[1..], b, terminal);
    }
  }

  function OfScan(s: Scan): DrainResult {
    match s
    case Done => Success
    case More => Waiting
    case Failed(e) => Rejected(e)
  }

  /** However the stream is cut into non-empty receives, draining returns what one scan of the
      whole stream returns. */
  lemma {:induction false} DrainIsOneScan(groups: seq<seq<Message>>, terminal: nat)
    requires ValidGroups(groups)
    ensures Drained(Receives(groups), terminal) == OfScan(ScanMessages(Concat(groups), terminal))
  {
    if groups == [] {
    } else {
      var rest := groups[1..];
      assert ValidGroups(rest) by { assert forall i | 0 <= i < |rest| :: rest[i] == groups[i + 1]; }
      assert Receives(groups)[1..] == Receives(rest);
      ScanOfEncoded(groups[0], terminal);
      ScanAppend(groups[0], Concat(rest), terminal);
      assert EncodeAll(groups[0]) != [] by { assert EncodeAll(groups[0])[0] == Encode(groups[0][0])[0]; }
      DrainIsOneScan(rest, terminal);
    }
  }

  /** So an apply is reported successful only on a DONE or a sequence number at or past the
      terminal one, with no error earlier in the stream. */
  lemma DrainSucceedsExactly(groups: seq<seq<Message>>, terminal: nat)
    requires ValidGroups(groups)
    ensures Drained(Receives(groups), terminal) == Success <==> Acknowledged(Concat(groups), terminal)
  {
    DrainIsOneScan(groups, terminal);
    ScanSucceedsExactly(Concat(groups), terminal);
  }

  /** The first refusal in what a receive delivers is reported with its number, whatever follows:
      the kernel writes minus the error number in two's complement. */
  lemma RefusalReported(before: seq<Message>, m: Message, after: seq<Message>, e: int, terminal: nat)
    requires AllWellFormed(before + [m] + after)
    requires forall i | 0 <= i < |before| :: Clean(before[i]) && before[i].kind != 3 && before[i].seqNo < terminal
    requires m.kind == 2 && 1 <= e <= 0x8000_0000 && WriteI32(-e) <= m.payload
    ensures AllSized(before + [m] + after)
    ensures Drained([Bytes(EncodeAll(before + [m] + after))], terminal) == Rejected(-e)
  {
    hide ScanBytes, Encode;
    var ms := before + [m] + after;
    ScanOfEncoded(ms, terminal);
    assert ReadI32(m.payload, 0) == ReadI32(WriteI32(-e), 0);
    assert ms == before + ([m] + after);
    ScanAppend(before, [m] + after, terminal);
    assert ([m] + after)[0] == m;
    NothingDecided(before, terminal);
    assert EncodeAll(ms) != [] by { assert |Encode(ms[0])| > 0; }
  }

  lemma {:induction false} NothingDecided(ms: seq<Message>, terminal: nat)
    requires forall i | 0 <= i < |ms| :: Clean(ms[i]) && ms[i].kind != 3 && ms[i].seqNo < terminal
    ensures ScanMessages(ms, terminal) == More
  {
    hide Clean, Errno;
    if ms == [] {
    } else {
      CleanExactly(ms[0]);
      assert forall i | 0 <= i < |ms[1..]| :: ms[1..][i] == ms[i + 1];
      NothingDecided(ms[1..], terminal);
    }
  }
}
