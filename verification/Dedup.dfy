/** Suppressing repeated flows: the timed map with sweeping, against a map that is never swept. */
module Dedup {
  import opened Common
  import opened Text
  import opened Policy
  import opened NfLog

  /** A request to let one flow through: when it was made, in seconds, and for which flow. */
  datatype Request = Request(time: real, key: string)

  /** Times never go back. */
  ghost predicate Ordered(reqs: seq<Request>) {
    forall i, j :: 0 <= i < j < |reqs| ==> reqs[i].time <= reqs[j].time
  }

  predicate Refuses(window: real, seen: map<string, real>, r: Request) {
    r.key in seen && r.time - seen[r.key] < window
  }

  /** The map after serving a list of requests, were it never swept. */
  function Unswept(window: real, reqs: seq<Request>): map<string, real> {
    if reqs == [] then map[] else
      var seen, last := Unswept(window, reqs[..|reqs| - 1]), reqs[|reqs| - 1];
      if Refuses(window, seen, last) then seen else seen[last.key := last.time]
  }

  predicate AllowedAt(window: real, reqs: seq<Request>, i: int) {
    0 <= i < |reqs| && !Refuses(window, Unswept(window, reqs[..i]), reqs[i])
  }

  lemma UnsweptStep(window: real, reqs: seq<Request>, r: Request)
    ensures Unswept(window, reqs + [r])
         == if Refuses(window, Unswept(window, reqs), r) then Unswept(window, reqs)
            else Unswept(window, reqs)[r.key := r.time]
  {
    assert (reqs + [r])[..|reqs|] == reqs;
  }

  /** A key's entry is the time it was last allowed; nothing stored is later than the last request. */
  lemma {:induction false} LastAllowed(window: real, reqs: seq<Request>, key: string)
    requires Ordered(reqs)
    ensures var seen := Unswept(window, reqs);
            && (key in seen ==>
                  exists i :: AllowedAt(window, reqs, i) && reqs[i].key == key && reqs[i].time == seen[key])
            && (forall i :: AllowedAt(window, reqs, i) && reqs[i].key == key ==>
                  key in seen && reqs[i].time <= seen[key])
  {
    if reqs == [] {
    } else {
      hide Refuses;
      var n := |reqs| - 1;
      var init := reqs[..n];
      LastAllowed(window, init, key);
      forall i | 0 <= i < n ensures AllowedAt(window, reqs, i) == AllowedAt(window, init, i) {
        assert reqs[..i] == init[..i];
      }
      if key in Unswept(window, init) {
        var i :| AllowedAt(window, init, i) && init[i].key == key && init[i].time == Unswept(window, init)[key];
        assert AllowedAt(window, reqs, i) && reqs[i].time <= reqs[n].time;
      }
      assert AllowedAt(window, reqs, n) == !Refuses(window, Unswept(window, init), reqs[n]);
      forall i | AllowedAt(window, reqs, i) && reqs[i].key == key
        ensures key in Unswept(window, reqs) && reqs[i].time <= Unswept(window, reqs)[key]
      {
        assert i < n ==> AllowedAt(window, init, i) && init[i] == reqs[i];
      }
    }
  }

  /** A flow is refused exactly when the same key was allowed less than one window ago. */
  lemma RefusedExactly(window: real, reqs: seq<Request>, r: Request)
    requires Ordered(reqs)
    ensures Refuses(window, Unswept(window, reqs), r)
       <==> exists i :: AllowedAt(window, reqs, i) && reqs[i].key == r.key && r.time - reqs[i].time < window
  {
    LastAllowed(window, reqs, r.key);
  }

  /** Two requests let through for one key are at least one window apart. */
  lemma AllowedApart(window: real, reqs: seq<Request>, i: nat, j: nat)
    requires Ordered(reqs) && i < j
    requires AllowedAt(window, reqs, i) && AllowedAt(window, reqs, j) && reqs[i].key == reqs[j].key
    ensures reqs[j].time - reqs[i].time >= window
  {
    var before := reqs[..j];
    RefusedExactly(window, before, reqs[j]);
    assert before[..i] == reqs[..i];
    assert AllowedAt(window, before, i);
  }

  /** How many of the requests were refused. */
  function RefusedCount(window: real, reqs: seq<Request>): nat {
    if reqs == [] then 0 else
      var init, last := reqs[..|reqs| - 1], reqs[|reqs| - 1];
      RefusedCount(window, init) + (if Refuses(window, Unswept(window, init), last) then 1 else 0)
  }

  /** The swept map: every entry it dropped had expired when it was dropped. */
  ghost predicate SweptFrom(window: real, seen: map<string, real>, full: map<string, real>, lastSweep: real) {
    && (forall k :: k in seen ==> k in full && full[k] == seen[k] && lastSweep - seen[k] < window)
    && (forall k :: k in full && k !in seen ==> lastSweep - full[k] >= window)
  }

  class Deduper {
    const window: real
    var seen: map<string, real>
    var lastSweep: real

    /** Every request served while suppression is on, and a time no later request precedes. */
    ghost var served: seq<Request>
    ghost var last: real

    ghost predicate Valid()
      reads this
    {
      && window >= 0.0 && lastSweep <= last && Ordered(served)
      && (forall i | 0 <= i < |served| :: served[i].time <= last)
      && SweptFrom(window, seen, Unswept(window, served), lastSweep)
    }

    constructor (windowSecs: nat, now: real)
      ensures Valid() && window == windowSecs as real && served == [] && last == now
    {
      window := windowSecs as real;
      seen := map[];
      lastSweep := now;
      served := [];
      last := now;
    }

    /** Drops the entries that have expired, at most once per window. */
    method Sweep(now: real)
      requires Valid() && last <= now && window > 0.0
      modifies this`seen, this`lastSweep, this`last
      ensures Valid() && last == now && now - lastSweep < window
    {
      if now - lastSweep >= window {
        seen := map k | k in seen && now - seen[k] < window :: seen[k];
        lastSweep := now;
      }
      last := now;
    }

    /** Answers as a map that is never swept would, and keeps no entry as old as two windows. */
    method Allow(key: string, now: real) returns (ok: bool)
      requires Valid() && last <= now
      modifies this
      ensures Valid() && last == now
      ensures window == 0.0 ==> ok && served == old(served) && seen == old(seen)
      ensures window > 0.0 ==> served == old(served) + [Request(now, key)]
      ensures window > 0.0 ==> ok == !Refuses(window, Unswept(window, old(served)), Request(now, key))
      ensures window > 0.0 ==> forall k :: k in seen ==> now - seen[k] < 2.0 * window
    {
      hide Unswept;
      if window == 0.0 {
        last := now;
        return true;
      }
      Sweep(now);
      UnsweptStep(window, served, Request(now, key));
      if key in seen && now - seen[key] < window {
        ok := false;
      } else {
        seen := seen[key := now];
        ok := true;
      }
      served := served + [Request(now, key)];
    }
  }

  // ----- the key -----

  /** Without a kernel timestamp the event bears the time it was received. */
  datatype FlowEvent = FlowEvent(
    verdict: string,
    dir: string,
    proto: string,
    src: string,
    dst: string,
    sport: Option<u16>,
    dport: Option<u16>,
    container: string,
    peer: Option<string>,
    stamp: Option<Stamp>)

  function PortOrZero(p: Option<u16>): u16 {
    if p.Some? then p.value else 0
  }

  /** Direction, protocol and both endpoints; the container is not part of it. */
  function Key(ev: FlowEvent): string {
    ev.dir + ['|'] + ev.proto + ['|'] + ev.src + ['|'] + Decimal(PortOrZero(ev.sport)) + ['|']
    + ev.dst + ['|'] + Decimal(PortOrZero(ev.dport))
  }

  /** True of every protocol name, and of printed addresses; the direction may be any text. */
  predicate NoBars(ev: FlowEvent) {
    '|' !in ev.proto && '|' !in ev.src && '|' !in ev.dst
  }

  /** The same port, where a missing one counts as port 0. */
  predicate SamePort(a: Option<u16>, b: Option<u16>) {
    a == b || (a == None && b == Some(0)) || (a == Some(0) && b == None)
  }

  predicate SameFlow(a: FlowEvent, b: FlowEvent) {
    && a.dir == b.dir && a.proto == b.proto && a.src == b.src && a.dst == b.dst
    && SamePort(a.sport, b.sport) && SamePort(a.dport, b.dport)
  }

  lemma LongerLast(a: string, x: string, b: string, y: string)
    requires |x| < |y| && '|' !in y
    ensures a + ['|'] + x != b + ['|'] + y
  {
    var s, t := a + ['|'] + x, b + ['|'] + y;
    if |s| == |t| {
      assert s[|a|] == '|';
      assert t[|a|] == y[|a| - |b| - 1];
    }
  }

  /** The last field can be told apart from what precedes it. */
  lemma LastField(a: string, x: string, b: string, y: string)
    requires '|' !in x && '|' !in y && a + ['|'] + x == b + ['|'] + y
    ensures a == b && x == y
  {
    var s, t := a + ['|'] + x, b + ['|'] + y;
    assert |x| == |y| by {
      if |x| < |y| { LongerLast(a, x, b, y); }
      if |y| < |x| { LongerLast(b, y, a, x); }
    }
    assert s[..|a|] == a && t[..|b|] == b && s[|a| + 1..] == x && t[|b| + 1..] == y;
  }

  lemma DigitsHaveNoBar(n: nat)
    ensures '|' !in Decimal(n)
  {
    hide Decimal;
    assert !IsDigit('|');
  }

  /** Two events share a key exactly when they are the same flow: a missing port counts as port 0. */
  lemma KeyIdentifiesFlow(a: FlowEvent, b: FlowEvent)
    requires NoBars(a) && NoBars(b)
    ensures Key(a) == Key(b) <==> SameFlow(a, b)
  {
    if Key(a) == Key(b) {
      hide Decimal;
      var aDport, bDport := Decimal(PortOrZero(a.dport)), Decimal(PortOrZero(b.dport));
      var aSport, bSport := Decimal(PortOrZero(a.sport)), Decimal(PortOrZero(b.sport));
      var a2, b2 := a.dir + ['|'] + a.proto, b.dir + ['|'] + b.proto;
      var a3, b3 := a2 + ['|'] + a.src, b2 + ['|'] + b.src;
      var a4, b4 := a3 + ['|'] + aSport, b3 + ['|'] + bSport;
      DigitsHaveNoBar(PortOrZero(a.dport));
      DigitsHaveNoBar(PortOrZero(b.dport));
      DigitsHaveNoBar(PortOrZero(a.sport));
      DigitsHaveNoBar(PortOrZero(b.sport));
      LastField(a4 + ['|'] + a.dst, aDport, b4 + ['|'] + b.dst, bDport);
      LastField(a4, a.dst, b4, b.dst);
      LastField(a3, aSport, b3, bSport);
      LastField(a2, a.src, b2, b.src);
      LastField(a.dir, a.proto, b.dir, b.proto);
      DecimalInjective(PortOrZero(a.sport), PortOrZero(b.sport));
      DecimalInjective(PortOrZero(a.dport), PortOrZero(b.dport));
    }
  }
}
