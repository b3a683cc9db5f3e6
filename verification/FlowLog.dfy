/** The flow-log receiver: from netlink buffers to emitted events, through dedup and rate limit. */
module FlowLog {
  import opened Common
  import opened Text
  import opened Address
  import opened Policy
  import opened FlowPrefix
  import opened Bytes
  import opened Netlink
  import opened NfLog
  import opened Dedup
  import opened Limiter

  /** What the packet reader finds in an IP packet's headers. */
  datatype PacketInfo = PacketInfo(src: IpAddr, dst: IpAddr, proto: byte, sport: Option<u16>, dport: Option<u16>)

  /** Foreign code the receiver calls: reading packet headers, decoding text, printing addresses. */
  datatype Readers = Readers(
    packet: seq<byte> -> Option<PacketInfo>,
    text: seq<byte> -> string,
    show: IpAddr -> string)

  function ProtoName(n: byte): string {
    if n == 1 then "icmp" else if n == 6 then "tcp" else if n == 17 then "udp" else if n == 58 then "ipv6-icmp"
    else Decimal(n)
  }

  /** The container at the far end: the destination of an egress flow, the source of an ingress one. */
  function Peer(index: map<IpAddr, string>, dir: string, info: PacketInfo): Option<string> {
    if dir == "egress" && info.dst in index then Some(index[info.dst])
    else if dir == "ingress" && info.src in index then Some(index[info.src])
    else None
  }

  function MakeEvent(r: Readers, index: map<IpAddr, string>, f: Fields, info: PacketInfo,
      stamp: Option<Stamp>): FlowEvent {
    FlowEvent(f.verdict, f.dir, ProtoName(info.proto), r.show(info.src), r.show(info.dst), info.sport, info.dport,
              f.container, Peer(index, f.dir, info), stamp)
  }

  /** No event without a payload, nor from a payload that is no IP packet. */
  function EventOf(r: Readers, index: map<IpAddr, string>, f: Found): Option<FlowEvent> {
    match f.payload
    case None => None
    case Some(bytes) => (
      match r.packet(bytes)
      case None => None
      case Some(info) => Some(MakeEvent(r, index, AbsorbAll(Split(r.text(f.prefix), ';')), info, f.stamp)))
  }

  /** The events a list of messages carries: one for each readable packet message, in order. */
  function Events(r: Readers, index: map<IpAddr, string>, ms: seq<Message>): seq<FlowEvent> {
    if ms == [] then [] else EventIn(r, index, ms[0]) + Events(r, index, ms[1..])
  }

  function EventIn(r: Readers, index: map<IpAddr, string>, m: Message): seq<FlowEvent> {
    if m.kind != PACKET_MSG then [] else
    match EventOf(r, index, FoundIn(m))
    case None => []
    case Some(ev) => [ev]
  }

  method ParseNflogPacket(r: Readers, index: map<IpAddr, string>, buf: seq<byte>, off: nat, len: nat)
    returns (ev: Option<FlowEvent>)
    requires off <= |buf| && Framed(buf[off..]) && len == FrontLen(buf[off..])
    ensures ev == EventOf(r, index, FoundIn(Front(buf[off..])))
  {
    hide Align4, Rest, Attrs, TakeAll, Split, AbsorbAll, Framed, FrontLen, Front;
    var found := ParseAttrs(buf, off, len);
    if found.payload.None? {
      return None;
    }
    var fields := ParsePrefix(r.text(found.prefix));
    var info := r.packet(found.payload.value);
    if info.None? {
      return None;
    }
    ev := Some(MakeEvent(r, index, fields, info.value, found.stamp));
  }

  /** A logged drop reports the container, direction and verdict it was tagged with, and the far
      end of the flow by its name in the index. */
  lemma DropReported(r: Readers, index: map<IpAddr, string>, name: string, dir: Direction, prefix: seq<byte>,
                     packet: seq<byte>, stamp: Option<Stamp>)
    requires r.text(prefix) == FlowlogPrefix(name, true, dir).value
    requires r.packet(packet).Some? && ';' !in Shown(name, dir)
    ensures var ev := EventOf(r, index, Found(prefix, Some(packet), stamp));
            var info := r.packet(packet).value;
            var far := if dir == Egress then info.dst else info.src;
            && ev.Some? && ev.value.container == Shown(name, dir)
            && ev.value.dir == (if dir == Egress then "egress" else "ingress") && ev.value.verdict == "drop"
            && ev.value.src == r.show(info.src) && ev.value.dst == r.show(info.dst) && ev.value.stamp == stamp
            && ev.value.sport == info.sport && ev.value.dport == info.dport
            && (info.proto == 1 ==> ev.value.proto == "icmp") && (info.proto == 6 ==> ev.value.proto == "tcp")
            && (info.proto == 17 ==> ev.value.proto == "udp") && (info.proto == 58 ==> ev.value.proto == "ipv6-icmp")
            && (info.proto != 1 && info.proto != 6 && info.proto != 17 && info.proto != 58 ==>
                  DigitsOnly(ev.value.proto) && DigitsValue(ev.value.proto) == info.proto)
            && ev.value.peer == if far in index then Some(index[far]) else None
  {
    hide Split, AbsorbAll, FlowlogPrefix, Shown;
    PrefixRoundTrip(name, dir);
    DigitsOfDecimal(r.packet(packet).value.proto);
  }

  predicate DigitsOnly(s: string) {
    forall c :: c in s ==> IsDigit(c)
  }

  /** A message is an event exactly when it is a packet message (type 0x400) whose payload reads as a packet. */
  lemma EventExactly(r: Readers, index: map<IpAddr, string>, m: Message)
    ensures |EventIn(r, index, m)| <= 1
    ensures EventIn(r, index, m) != []
       <==> m.kind == 0x400 && FoundIn(m).payload.Some? && r.packet(FoundIn(m).payload.value).Some?
  {
    hide FoundIn, MakeEvent;
  }

  /** Addresses print without `|`, as they do in every notation for them. */
  ghost predicate PrintsPlainly(r: Readers) {
    forall a :: '|' !in r.show(a)
  }

  /** So no two flows the receiver parses share a dedup key unless they are the same flow. */
  lemma ParsedKeys(r: Readers, index: map<IpAddr, string>, f: Found, index': map<IpAddr, string>, f': Found)
    requires PrintsPlainly(r)
    ensures var a, b := EventOf(r, index, f), EventOf(r, index', f');
            a.Some? && b.Some? ==> (Key(a.value) == Key(b.value) <==> SameFlow(a.value, b.value))
  {
    hide Key, SameFlow, AbsorbAll, Split, Decimal;
    var a, b := EventOf(r, index, f), EventOf(r, index', f');
    if a.Some? && b.Some? {
      PlainProtocol(r.packet(f.payload.value).value.proto);
      PlainProtocol(r.packet(f'.payload.value).value.proto);
      KeyIdentifiesFlow(a.value, b.value);
    }
  }

  lemma PlainProtocol(n: byte)
    ensures '|' !in ProtoName(n)
  {
    DigitsHaveNoBar(n);
  }

  // ----- accounting -----

  /** What became of one parsed event; a sent one was admitted by dedup, then granted by the limiter. */
  datatype Fate = Sent(at: real, granted: real) | Limited | Suppressed

  /** The events that reached the sink, in order. */
  function SentEvents(events: seq<FlowEvent>, fates: seq<Fate>): seq<FlowEvent>
    requires |events| == |fates|
  {
    if events == [] then [] else
      var n := |events| - 1;
      SentEvents(events[..n], fates[..n]) + (if fates[n].Sent? then [events[n]] else [])
  }

  function LimitedCount(fates: seq<Fate>): nat {
    if fates == [] then 0
    else LimitedCount(fates[..|fates| - 1]) + (if fates[|fates| - 1].Limited? then 1 else 0)
  }

  function SuppressedCount(fates: seq<Fate>): nat {
    if fates == [] then 0
    else SuppressedCount(fates[..|fates| - 1]) + (if fates[|fates| - 1].Suppressed? then 1 else 0)
  }

  /** Every parsed event was emitted, rate-limited or suppressed, and none twice. */
  lemma {:induction false} Conservation(events: seq<FlowEvent>, fates: seq<Fate>)
    requires |events| == |fates|
    ensures |events| == |SentEvents(events, fates)| + LimitedCount(fates) + SuppressedCount(fates)
  {
    if events == [] {
    } else {
      Conservation(events[..|events| - 1], fates[..|fates| - 1]);
    }
  }

  /** What dedup suppressed is what the unswept map refuses. */
  lemma {:induction false} SuppressedAreRefused(
      window: real, served: seq<Request>, events: seq<FlowEvent>, fates: seq<Fate>)
    requires |events| == |fates| && Deduped(window, served, events, fates)
    ensures SuppressedCount(fates) == if window == 0.0 then 0 else RefusedCount(window, served)
  {
    hide Key, Refuses, Unswept;
    if fates == [] {
    } else {
      var n := |fates| - 1;
      if window == 0.0 {
        SuppressedAreRefused(window, served, events[..n], fates[..n]);
      } else {
        forall i | 0 <= i < n ensures AllowedAt(window, served[..n], i) == AllowedAt(window, served, i) {
          assert served[..n][..i] == served[..i];
        }
        SuppressedAreRefused(window, served[..n], events[..n], fates[..n]);
        assert AllowedAt(window, served, n) == !Refuses(window, Unswept(window, served[..n]), served[n]);
      }
    }
  }

  lemma CountsStep(events: seq<FlowEvent>, fates: seq<Fate>, ev: FlowEvent, fate: Fate)
    requires |events| == |fates|
    ensures SentEvents(events + [ev], fates + [fate])
         == SentEvents(events, fates) + (if fate.Sent? then [ev] else [])
    ensures LimitedCount(fates + [fate]) == LimitedCount(fates) + (if fate.Limited? then 1 else 0)
  {
    assert (events + [ev])[..|events|] == events;
    assert (fates + [fate])[..|fates|] == fates;
  }

  /** Each event was suppressed exactly when an unswept map over every earlier event refuses it:
      its key is recorded even when the limiter then refuses it. */
  ghost predicate Deduped(window: real, served: seq<Request>, events: seq<FlowEvent>, fates: seq<Fate>)
    requires |events| == |fates|
  {
    if window == 0.0 then forall i | 0 <= i < |fates| :: !fates[i].Suppressed?
    else
      && |served| == |events|
      && forall i | 0 <= i < |fates| ::
           && served[i].key == Key(events[i])
           && (fates[i].Suppressed? <==> !AllowedAt(window, served, i))
           && (fates[i].Sent? ==> fates[i].at == served[i].time)
  }

  lemma DedupedStep(window: real, served: seq<Request>, events: seq<FlowEvent>, fates: seq<Fate>,
                    ev: FlowEvent, fate: Fate, now: real)
    requires |events| == |fates| && window > 0.0 && Deduped(window, served, events, fates)
    requires fate.Suppressed? <==> Refuses(window, Unswept(window, served), Request(now, Key(ev)))
    requires fate.Sent? ==> fate.at == now
    ensures Deduped(window, served + [Request(now, Key(ev))], events + [ev], fates + [fate])
  {
    hide Key, Unswept, Refuses;
    var all := served + [Request(now, Key(ev))];
    forall i | 0 <= i < |served| ensures AllowedAt(window, all, i) == AllowedAt(window, served, i) {
      assert all[..i] == served[..i];
    }
    assert all[..|served|] == served;
  }

  /** Emissions of one key are at least one window apart, by the time dedup admitted them. */
  lemma EmissionsSpaced(window: real, served: seq<Request>, events: seq<FlowEvent>, fates: seq<Fate>, i: nat, j: nat)
    requires |events| == |fates| && window > 0.0 && Ordered(served) && Deduped(window, served, events, fates)
    requires i < j < |fates| && fates[i].Sent? && fates[j].Sent? && Key(events[i]) == Key(events[j])
    ensures fates[j].at - fates[i].at >= window
  {
    AllowedApart(window, served, i, j);
  }

  /** Events that dedup let through to the limiter. */
  function Admitted(fates: seq<Fate>): nat {
    if fates == [] then 0
    else Admitted(fates[..|fates| - 1]) + (if fates[|fates| - 1].Suppressed? then 0 else 1)
  }

  /** The `n`-th call of the limiter took a token. */
  predicate CallGranted(rate: nat, start: real, calls: seq<real>, n: nat) {
    0 < n <= |calls| && LastGranted(rate, start, calls[..n])
  }

  /** The limiter is asked once per admitted event, and its answer is the event's fate. */
  ghost predicate Paced(rate: nat, start: real, calls: seq<real>, fates: seq<Fate>) {
    if rate == 0 then forall i | 0 <= i < |fates| :: !fates[i].Limited?
    else
      && |calls| == Admitted(fates)
      && forall i | 0 <= i < |fates| :: Answered(rate, start, calls, fates[i], Admitted(fates[..i + 1]))
  }

  /** The `n`-th call is the one asked about this fate. */
  ghost predicate Answered(rate: nat, start: real, calls: seq<real>, fate: Fate, n: nat) {
    !fate.Suppressed? ==>
      && (fate.Sent? <==> CallGranted(rate, start, calls, n))
      && (fate.Sent? ==> fate.granted == calls[n - 1])
  }

  lemma {:induction false} AdmittedPrefix(fates: seq<Fate>, n: nat)
    requires n <= |fates|
    ensures Admitted(fates[..n]) <= Admitted(fates)
  {
    if n < |fates| {
      AdmittedPrefix(fates[..|fates| - 1], n);
      assert fates[..|fates| - 1][..n] == fates[..n];
    } else {
      assert fates[..n] == fates;
    }
  }

  lemma CallGrantedPrefix(rate: nat, start: real, calls: seq<real>, m: nat, n: nat)
    requires n <= m <= |calls|
    ensures CallGranted(rate, start, calls[..m], n) == CallGranted(rate, start, calls, n)
    ensures CallGranted(rate, start, calls, n) ==> n > 0
  {
    hide LastGranted;
    assert calls[..m][..n] == calls[..n];
  }

  lemma CallGrantedLast(rate: nat, start: real, calls: seq<real>, now: real)
    ensures CallGranted(rate, start, calls + [now], |calls| + 1) == Grants(rate, Run(rate, start, calls), now)
  {
    hide Grants, Run;
    var all := calls + [now];
    assert all[..|all|] == all && all[..|calls|] == calls;
  }

  lemma PacedSuppressed(rate: nat, start: real, calls: seq<real>, fates: seq<Fate>)
    requires Paced(rate, start, calls, fates)
    ensures Paced(rate, start, calls, fates + [Suppressed])
  {
    hide CallGranted;
    var all := fates + [Suppressed];
    assert all[..|fates|] == fates;
    forall i | 0 <= i < |fates| ensures all[..i + 1] == fates[..i + 1] && all[i] == fates[i] {}
  }

  /** A call more does not change what became of an earlier event. */
  lemma AnsweredEarlier(rate: nat, start: real, calls: seq<real>, fates: seq<Fate>, i: nat, now: real)
    requires i < |fates| && |calls| == Admitted(fates)
    requires Answered(rate, start, calls, fates[i], Admitted(fates[..i + 1]))
    ensures Answered(rate, start, calls + [now], fates[i], Admitted(fates[..i + 1]))
  {
    hide LastGranted, Admitted;
    AdmittedPrefix(fates, i + 1);
    assert (calls + [now])[..|calls|] == calls;
    CallGrantedPrefix(rate, start, calls + [now], |calls|, Admitted(fates[..i + 1]));
  }

  lemma PacedStep(rate: nat, start: real, calls: seq<real>, fates: seq<Fate>, fate: Fate, now: real)
    requires rate > 0 && Paced(rate, start, calls, fates) && !fate.Suppressed?
    requires (fate.Sent? <==> Grants(rate, Run(rate, start, calls), now)) && (fate.Sent? ==> fate.granted == now)
    ensures Paced(rate, start, calls + [now], fates + [fate])
  {
    hide Grants, Run, CallGranted;
    var all, allCalls := fates + [fate], calls + [now];
    assert all[..|fates|] == fates && all[..|all|] == all;
    CallGrantedLast(rate, start, calls, now);
    assert Admitted(all) == |allCalls|;
    assert Answered(rate, start, allCalls, fate, Admitted(all));
    hide Admitted, Answered;
    forall i | 0 <= i < |all| ensures Answered(rate, start, allCalls, all[i], Admitted(all[..i + 1])) {
      if i < |fates| {
        assert all[..i + 1] == fates[..i + 1];
        AnsweredEarlier(rate, start, calls, fates, i, now);
      }
    }
  }

  lemma PacedPrefix(rate: nat, start: real, calls: seq<real>, fates: seq<Fate>)
    requires rate > 0 && fates != [] && Paced(rate, start, calls, fates)
    ensures var n, last := |fates| - 1, fates[|fates| - 1];
            if last.Suppressed? then Paced(rate, start, calls, fates[..n])
            else calls != [] && Paced(rate, start, calls[..|calls| - 1], fates[..n])
  {
    hide CallGranted;
    var n := |fates| - 1;
    var init := fates[..n];
    var fewer := if fates[n].Suppressed? then calls else calls[..|calls| - 1];
    assert Admitted(init) == |fewer|;
    forall i | 0 <= i < n
      ensures init[i] == fates[i] && init[..i + 1] == fates[..i + 1] && 0 <= Admitted(fates[..i + 1]) <= |fewer|
      ensures CallGranted(rate, start, fewer, Admitted(fates[..i + 1]))
           == CallGranted(rate, start, calls, Admitted(fates[..i + 1]))
    {
      AdmittedPrefix(init, i + 1);
      assert init[..i + 1] == fates[..i + 1];
      assert calls[..|fewer|] == fewer;
      CallGrantedPrefix(rate, start, calls, |fewer|, Admitted(fates[..i + 1]));
    }
  }

  /** Emissions granted between two times. */
  function SentWithin(fates: seq<Fate>, t1: real, t2: real): nat {
    if fates == [] then 0 else
      var last := fates[|fates| - 1];
      SentWithin(fates[..|fates| - 1], t1, t2) + (if last.Sent? && t1 <= last.granted <= t2 then 1 else 0)
  }

  /** Emissions are the limiter's granted calls. */
  lemma {:induction false} SentAreGranted(rate: nat, start: real, calls: seq<real>, fates: seq<Fate>, t1: real,
      t2: real)
    requires rate > 0 && Paced(rate, start, calls, fates)
    ensures SentWithin(fates, t1, t2) == GrantedWithin(rate, start, calls, t1, t2)
  {
    hide LastGranted;
    if fates == [] {
    } else {
      var n, last := |fates| - 1, fates[|fates| - 1];
      PacedPrefix(rate, start, calls, fates);
      assert fates[..n + 1] == fates && calls[..|calls|] == calls;
      SentAreGranted(rate, start, if last.Suppressed? then calls else calls[..|calls| - 1], fates[..n], t1, t2);
    }
  }

  /** One more event keeps every fate explained. */
  lemma FateStep(window: real, served: seq<Request>, now: real, rate: nat, start: real, calls: seq<real>, later: real,
                 events: seq<FlowEvent>, fates: seq<Fate>, ev: FlowEvent, fate: Fate)
    requires |events| == |fates|
    requires Deduped(window, served, events, fates) && Paced(rate, start, calls, fates) && window >= 0.0
    requires fate.Suppressed? <==> window > 0.0 && Refuses(window, Unswept(window, served), Request(now, Key(ev)))
    requires fate.Sent? ==> fate.at == now && fate.granted == later
    requires !fate.Suppressed?
         ==> if rate == 0 then fate.Sent? else fate.Sent? == Grants(rate, Run(rate, start, calls), later)
    ensures window > 0.0 ==> Deduped(window, served + [Request(now, Key(ev))], events + [ev], fates + [fate])
    ensures window == 0.0 ==> Deduped(window, served, events + [ev], fates + [fate])
    ensures fate.Suppressed? || rate == 0 ==> Paced(rate, start, calls, fates + [fate])
    ensures !fate.Suppressed? && rate > 0 ==> Paced(rate, start, calls + [later], fates + [fate])
  {
    hide Unswept, Key, Refuses, Grants, Run, AllowedAt, CallGranted;
    if window > 0.0 { DedupedStep(window, served, events, fates, ev, fate, now); }
    if fate.Suppressed? { PacedSuppressed(rate, start, calls, fates); }
    else if rate > 0 { PacedStep(rate, start, calls, fates, fate, later); }
  }

  // ----- the receiver -----

  /** A monotonic clock; a reading may be any time not before the last. */
  class Clock {
    var time: real

    method Now() returns (t: real)
      modifies this
      ensures t == time >= old(time)
    {
      var step: real := *;
      if step > 0.0 { time := time + step; }
      t := time;
    }
  }

  class Receiver {
    const readers: Readers
    const clock: Clock
    const deduper: Deduper
    const limiter: RateLimiter

    /** Metrics: events parsed, and events refused by the limiter; and what reached the sink. */
    var parsed: nat
    var limited: nat
    var emitted: seq<FlowEvent>

    ghost var events: seq<FlowEvent>
    ghost var fates: seq<Fate>

    ghost predicate Timed()
      reads this, clock, deduper, limiter
    {
      deduper.Valid() && limiter.Valid() && deduper.last <= clock.time && limiter.latest <= clock.time
    }

    ghost predicate Accounted()
      reads this
    {
      && |events| == |fates| == parsed
      && emitted == SentEvents(events, fates) && limited == LimitedCount(fates)
    }

    ghost predicate Fated()
      requires |events| == |fates|
      reads this, deduper, limiter
    {
      && Deduped(deduper.window, deduper.served, events, fates)
      && Paced(limiter.rate, limiter.start, limiter.calls, fates)
    }

    ghost predicate Valid()
      reads this, clock, deduper, limiter
    {
      Timed() && Accounted() && Fated()
    }

    constructor (readers: Readers, clock: Clock, deduper: Deduper, limiter: RateLimiter)
      requires deduper.Valid() && limiter.Valid() && deduper.last <= clock.time && limiter.latest <= clock.time
      requires limiter.calls == [] && deduper.served == []
      ensures Valid() && emitted == [] && parsed == limited == 0
      ensures this.readers == readers && this.clock == clock && this.deduper == deduper && this.limiter == limiter
    {
      this.readers := readers;
      this.clock := clock;
      this.deduper := deduper;
      this.limiter := limiter;
      parsed, limited, emitted := 0, 0, [];
      events, fates := [], [];
    }

    /** What dedup and the limiter make of one event. */
    method Decide(ev: FlowEvent) returns (fate: Fate)
      requires Timed()
      modifies deduper, limiter, clock
      ensures Timed()
      ensures fate.Suppressed? <==>
        deduper.window > 0.0
        && Refuses(deduper.window, Unswept(deduper.window, old(deduper.served)), Request(deduper.last, Key(ev)))
      ensures fate.Sent? ==> fate.at == deduper.last && fate.granted == limiter.latest
      ensures limiter.calls ==
        if fate.Suppressed? || limiter.rate == 0 then old(limiter.calls) else old(limiter.calls) + [limiter.latest]
      ensures !fate.Suppressed? && limiter.rate > 0 ==>
        fate.Sent? == Grants(limiter.rate, Run(limiter.rate, limiter.start, old(limiter.calls)), limiter.latest)
      ensures !fate.Suppressed? && limiter.rate == 0 ==> fate.Sent?
      ensures old(deduper.last) <= deduper.last
      ensures deduper.served ==
        if deduper.window > 0.0 then old(deduper.served) + [Request(deduper.last, Key(ev))] else old(deduper.served)
    {
      hide Unswept, Key, Run, Refuses, Grants;
      var t := clock.Now();
      var unseen := deduper.Allow(Key(ev), t);
      if !unseen {
        return Suppressed;
      }
      var t2 := clock.Now();
      var ok := limiter.Allow(t2);
      fate := if ok then Sent(t, t2) else Limited;
    }

    /** Counts one event, then emits it, drops it over the rate, or suppresses it as a repeat. */
    method Handle(ev: FlowEvent)
      requires Valid()
      modifies this, deduper, limiter, clock
      ensures Valid()
      ensures events == old(events) + [ev]
      ensures |fates| == |old(fates)| + 1 && fates[..|old(fates)|] == old(fates)
    {
      hide Unswept, Key, Run, Refuses, Grants, SentEvents, LimitedCount, Deduped, Paced;
      parsed := parsed + 1;
      var fate := Decide(ev);
      if fate.Sent? {
        emitted := emitted + [ev];
      }
      if fate.Limited? {
        limited := limited + 1;
      }
      CountsStep(events, fates, ev, fate);
      FateStep(deduper.window, old(deduper.served), deduper.last, limiter.rate, limiter.start, old(limiter.calls),
               limiter.latest, events, fates, ev, fate);
      events, fates := events + [ev], fates + [fate];
    }

    /** Parsed = emitted + rate-limited + suppressed, and what was suppressed is what a map that is never
        swept refuses: nothing at all with a zero window. */
    lemma Conserved()
      requires Valid()
      ensures parsed == |emitted| + limited + SuppressedCount(fates)
      ensures SuppressedCount(fates)
           == if deduper.window == 0.0 then 0 else RefusedCount(deduper.window, deduper.served)
    {
      hide Deduped, Paced;
      Conservation(events, fates);
      SuppressedAreRefused(deduper.window, deduper.served, events, fates);
    }

    /** Emissions of one key are at least one window apart, by the time dedup admitted them. */
    lemma Spaced(i: nat, j: nat)
      requires Valid() && i < j < |fates| && fates[i].Sent? && fates[j].Sent? && Key(events[i]) == Key(events[j])
      ensures fates[j].at - fates[i].at >= deduper.window || deduper.window == 0.0
    {
      hide Deduped, Paced, Key, SentEvents;
      if deduper.window > 0.0 { EmissionsSpaced(deduper.window, deduper.served, events, fates, i, j); }
    }

    /** Between any two times, emissions number at most the rate plus the rate times the seconds between. */
    lemma EmittedWithinRate(t1: real, t2: real)
      requires Valid() && limiter.rate > 0 && t1 <= t2
      ensures SentWithin(fates, t1, t2) as real <= limiter.rate as real + limiter.rate as real * (t2 - t1)
    {
      hide Deduped, Paced, SentEvents, GrantedWithin;
      SentAreGranted(limiter.rate, limiter.start, limiter.calls, fates, t1, t2);
      RateBound(limiter.rate, limiter.start, limiter.calls, t1, t2);
    }

    /** One framed message: a readable packet message is handled, any other is passed over. */
    method ScanOne(buf: seq<byte>, off: nat, len: nat, index: map<IpAddr, string>)
      requires Valid() && Framed(From(buf, off)) && len == FrontLen(From(buf, off))
      modifies this, deduper, limiter, clock
      ensures Valid() && old(fates) <= fates
      ensures events == old(events) + EventIn(readers, index, Front(From(buf, off)))
    {
      hide Align4, Rest, FrontLen, Front, Valid, EventOf, FoundIn;
      FrameAt(buf, off);
      if ReadU16(buf, off + 4) == PACKET_MSG {
        var ev := ParseNflogPacket(readers, index, buf, off, len);
        if ev.Some? {
          Handle(ev.value);
        }
      }
    }

    /** One received buffer: every readable packet message in it is handled, in order, and nothing else is. */
    method Scan(buf: seq<byte>, index: map<IpAddr, string>)
      requires Valid()
      modifies this, deduper, limiter, clock
      ensures Valid() && old(fates) <= fates
      ensures events == old(events) + Events(readers, index, Messages(buf))
    {
      hide Align4, Rest, Messages, FrontLen, Front, Valid, Events, EventIn;
      var off: nat := 0;
      assert From(buf, 0) == buf;
      while off + NLMSG_HDRLEN <= |buf|
        invariant Valid() && old(fates) <= fates
        invariant events + Events(readers, index, Messages(From(buf, off)))
               == old(events) + Events(readers, index, Messages(buf))
        decreases |buf| - off
      {
        FrameAt(buf, off);
        EventsStep(readers, index, buf, off);
        var len := ReadU32(buf, off);
        if len < NLMSG_HDRLEN || off + len > |buf| {
          break;
        }
        ScanOne(buf, off, len, index);
        off := off + Align4(len);
      }
      FrameAt(buf, off);
      EventsStep(readers, index, buf, off);
    }

    /** The receive loop: whatever is received, parsed = emitted + rate-limited + suppressed, and the events
        parsed are those of the buffers up to the first end of file or error. */
    method Receive(inputs: seq<Received>)
      requires Valid()
      modifies this, deduper, limiter, clock
      ensures Valid() && old(fates) <= fates
      ensures events == old(events) + EventsUntilClosed(readers, inputs)
      ensures parsed == |emitted| + limited + SuppressedCount(fates)
    {
      hide Valid, Events, SuppressedCount;
      for i := 0 to |inputs|
        invariant Valid() && old(fates) <= fates
        invariant events + EventsUntilClosed(readers, inputs[i..]) == old(events) + EventsUntilClosed(readers, inputs)
      {
        assert inputs[i..][0] == inputs[i] && inputs[i..][1..] == inputs[i + 1..];
        match inputs[i]
        case Interrupted =>
        case Failed =>
          break;
        case Data(buf, index) =>
          if buf == [] {
            break;
          }
          Scan(buf, index);
      }
      Conserved();
    }
  }

  /** One return of the receive call, with the IP index in force. */
  datatype Received = Data(buf: seq<byte>, index: map<IpAddr, string>) | Interrupted | Failed

  /** An empty read or an error ends the receiver; an interruption does not. */
  function EventsUntilClosed(r: Readers, inputs: seq<Received>): seq<FlowEvent> {
    if inputs == [] then [] else
    match inputs[0]
    case Interrupted => EventsUntilClosed(r, inputs[1..])
    case Failed => []
    case Data(buf, index) =>
      if buf == [] then [] else Events(r, index, Messages(buf)) + EventsUntilClosed(r, inputs[1..])
  }

  /** The events of every buffer in a list. */
  function BufferEvents(r: Readers, inputs: seq<Received>): seq<FlowEvent> {
    if inputs == [] then [] else
      var last := inputs[|inputs| - 1];
      BufferEvents(r, inputs[..|inputs| - 1]) + (if last.Data? then Events(r, last.index, Messages(last.buf)) else [])
  }

  /** An error, or an empty read. */
  predicate Closes(input: Received) {
    input.Failed? || (input.Data? && |input.buf| == 0)
  }

  /** What is read is every buffer up to the first input that closes the socket, and none after it. */
  lemma {:induction false} ReadUntilClosed(r: Readers, inputs: seq<Received>, n: nat)
    requires n <= |inputs| && (forall i | 0 <= i < n :: !Closes(inputs[i])) && (n < |inputs| ==> Closes(inputs[n]))
    ensures EventsUntilClosed(r, inputs) == BufferEvents(r, inputs[..n])
    decreases n
  {
    hide Events, Messages;
    if n == 0 {
    } else {
      var rest := inputs[1..];
      assert forall i | 0 <= i < n - 1 :: rest[i] == inputs[i + 1];
      ReadUntilClosed(r, rest, n - 1);
      assert inputs[..n] == [inputs[0]] + rest[..n - 1];
      BufferEventsFirst(r, inputs[0], rest[..n - 1]);
    }
  }

  lemma {:induction false} BufferEventsFirst(r: Readers, first: Received, rest: seq<Received>)
    ensures BufferEvents(r, [first] + rest) == BufferEvents(r, [first]) + BufferEvents(r, rest)
    ensures BufferEvents(r, [first]) == if first.Data? then Events(r, first.index, Messages(first.buf)) else []
    decreases |rest|
  {
    hide Events, Messages;
    assert [first][..0] == [];
    if rest == [] {
      assert [first] + rest == [first];
    } else {
      assert ([first] + rest)[..|rest|] == [first] + rest[..|rest| - 1];
      BufferEventsFirst(r, first, rest[..|rest| - 1]);
    }
  }

  /** One step of the scan, at a raw offset. */
  lemma EventsStep(r: Readers, index: map<IpAddr, string>, buf: seq<byte>, off: nat)
    ensures Events(r, index, Messages(From(buf, off)))
         == if !Framed(From(buf, off)) then []
            else EventIn(r, index, Front(From(buf, off)))
                 + Events(r, index, Messages(From(buf, off + Align4(ReadU32(buf, off)))))
  {
    hide Align4, Rest, EventIn, Framed;
    FrameAt(buf, off);
    var here := From(buf, off);
    if Framed(here) {
      var rest := Messages(Rest(here, FrontLen(here)));
      assert Messages(here) == [Front(here)] + rest;
      assert Messages(here)[1..] == rest;
    }
  }
}
