/** The token bucket that caps emitted events per second, over real-valued time. */
module Limiter {

  /** Tokens left, and when they were last counted. */
  datatype Bucket = Bucket(tokens: real, last: real)

  /** Tokens earned over a number of seconds. */
  function Earned(rate: nat, seconds: real): real {
    seconds * rate as real
  }

  lemma EarnedAdds(rate: nat, a: real, b: real)
    ensures Earned(rate, a + b) == Earned(rate, a) + Earned(rate, b)
    ensures a >= 0.0 ==> Earned(rate, a) >= 0.0
  {}

  lemma EarnedPerSecond(rate: nat, seconds: real)
    ensures Earned(rate, seconds) == rate as real * seconds
  {}

  function Refill(rate: nat, b: Bucket, now: real): real {
    var full := b.tokens + Earned(rate, now - b.last);
    if full <= rate as real then full else rate as real
  }

  predicate Grants(rate: nat, b: Bucket, now: real) {
    Refill(rate, b, now) >= 1.0
  }

  function After(rate: nat, b: Bucket, now: real): Bucket {
    Bucket(Refill(rate, b, now) - (if Grants(rate, b, now) then 1.0 else 0.0), now)
  }

  /** Call times never go back, nor before the bucket was made. */
  ghost predicate OrderedFrom(start: real, times: seq<real>) {
    && (forall i | 0 <= i < |times| :: start <= times[i])
    && (forall i, j :: 0 <= i < j < |times| ==> times[i] <= times[j])
  }

  /** A full bucket made at `start`, after calls at the given times. */
  function Run(rate: nat, start: real, times: seq<real>): Bucket {
    if times == [] then Bucket(rate as real, start)
    else After(rate, Run(rate, start, times[..|times| - 1]), times[|times| - 1])
  }

  /** The last of the calls was allowed. */
  predicate LastGranted(rate: nat, start: real, times: seq<real>)
    requires times != []
  {
    Grants(rate, Run(rate, start, times[..|times| - 1]), times[|times| - 1])
  }

  /** How many calls were allowed, from call `i` on. */
  function GrantedSince(rate: nat, start: real, times: seq<real>, i: nat): nat {
    if |times| <= i then 0
    else
      var earlier := GrantedSince(rate, start, times[..|times| - 1], i);
      if LastGranted(rate, start, times) then earlier + 1 else earlier
  }

  /** How many calls in `t1..=t2` were allowed. */
  function GrantedWithin(rate: nat, start: real, times: seq<real>, t1: real, t2: real): nat {
    if times == [] then 0
    else
      var earlier := GrantedWithin(rate, start, times[..|times| - 1], t1, t2);
      if t1 <= times[|times| - 1] <= t2 && LastGranted(rate, start, times) then earlier + 1 else earlier
  }

  lemma RunLast(rate: nat, start: real, times: seq<real>)
    ensures Run(rate, start, times).last == if times == [] then start else times[|times| - 1]
  {}

  lemma InitOrdered(start: real, times: seq<real>)
    requires OrderedFrom(start, times) && times != []
    ensures OrderedFrom(start, times[..|times| - 1])
  {}

  /** Tokens stay between zero and the rate. */
  lemma {:induction false} TokensBounded(rate: nat, start: real, times: seq<real>)
    requires OrderedFrom(start, times)
    ensures 0.0 <= Run(rate, start, times).tokens <= rate as real
  {
    hide Earned;
    if times == [] {
    } else {
      var init := times[..|times| - 1];
      InitOrdered(start, times);
      TokensBounded(rate, start, init);
      RunLast(rate, start, init);
      EarnedAdds(rate, times[|times| - 1] - Run(rate, start, init).last, 0.0);
    }
  }

  /** A call at least `1 / rate` seconds after the previous one is allowed. */
  lemma SpacedCallGranted(rate: nat, start: real, times: seq<real>, now: real)
    requires rate > 0 && OrderedFrom(start, times)
    requires now - Run(rate, start, times).last >= 1.0 / rate as real
    ensures Grants(rate, Run(rate, start, times), now)
  {
    hide Run;
    var b, step := Run(rate, start, times), 1.0 / rate as real;
    TokensBounded(rate, start, times);
    assert Earned(rate, step) == 1.0;
    EarnedAdds(rate, now - b.last - step, step);
  }

  // ----- the rate, from above -----

  /** What is left plus what was allowed since `t1` never exceeds a full bucket plus the refill since `t1`. */
  lemma {:induction false} Potential(rate: nat, start: real, times: seq<real>, t1: real, t2: real)
    requires OrderedFrom(start, times) && times != [] && t1 <= times[|times| - 1] <= t2
    ensures GrantedWithin(rate, start, times, t1, t2) as real + Run(rate, start, times).tokens
         <= rate as real + Earned(rate, times[|times| - 1] - t1)
  {
    hide Earned;
    var init, now := times[..|times| - 1], times[|times| - 1];
    InitOrdered(start, times);
    RunLast(rate, start, init);
    EarnedAdds(rate, now - t1, 0.0);
    if init != [] && t1 <= init[|init| - 1] {
      Potential(rate, start, init, t1, t2);
      EarnedAdds(rate, now - init[|init| - 1], init[|init| - 1] - t1);
    } else {
      NoneBefore(rate, start, init, t1, t2);
    }
  }

  lemma {:induction false} NoneBefore(rate: nat, start: real, times: seq<real>, t1: real, t2: real)
    requires OrderedFrom(start, times) && (times != [] ==> times[|times| - 1] < t1)
    ensures GrantedWithin(rate, start, times, t1, t2) == 0
  {
    if times == [] {
    } else {
      InitOrdered(start, times);
      NoneBefore(rate, start, times[..|times| - 1], t1, t2);
    }
  }

  lemma {:induction false} GrantedWithinEarned(rate: nat, start: real, times: seq<real>, t1: real, t2: real)
    requires OrderedFrom(start, times) && t1 <= t2
    ensures GrantedWithin(rate, start, times, t1, t2) as real <= rate as real + Earned(rate, t2 - t1)
  {
    hide Earned;
    EarnedAdds(rate, t2 - t1, 0.0);
    if times == [] {
    } else {
      var now := times[|times| - 1];
      if t1 <= now <= t2 {
        Potential(rate, start, times, t1, t2);
        TokensBounded(rate, start, times);
        EarnedAdds(rate, t2 - now, now - t1);
      } else {
        InitOrdered(start, times);
        GrantedWithinEarned(rate, start, times[..|times| - 1], t1, t2);
      }
    }
  }

  /** Between any two times, at most the rate plus the rate times the seconds between them is allowed. */
  lemma RateBound(rate: nat, start: real, times: seq<real>, t1: real, t2: real)
    requires OrderedFrom(start, times) && t1 <= t2
    ensures GrantedWithin(rate, start, times, t1, t2) as real <= rate as real + rate as real * (t2 - t1)
  {
    hide GrantedWithin, OrderedFrom;
    GrantedWithinEarned(rate, start, times, t1, t2);
    EarnedPerSecond(rate, t2 - t1);
  }

  // ----- the rate, exactly -----

  /** What a bucket refilled since call `i` could still hold at `now`. */
  function Slack(rate: nat, start: real, times: seq<real>, i: nat, now: real): real
    requires i < |times|
  {
    rate as real + Earned(rate, now - times[i]) - GrantedSince(rate, start, times, i) as real
  }

  lemma SlackStep(rate: nat, start: real, times: seq<real>, i: nat, now: real)
    requires i + 1 < |times|
    ensures var init, last := times[..|times| - 1], times[|times| - 1];
            Slack(rate, start, times, i, now) == Slack(rate, start, init, i, last) + Earned(rate, now - last)
              - (if LastGranted(rate, start, times) then 1.0 else 0.0)
  {
    hide Earned;
    var last := times[|times| - 1];
    EarnedAdds(rate, now - last, last - times[i]);
  }

  lemma {:induction false} LevelWithinSlack(rate: nat, start: real, times: seq<real>, i: nat, now: real)
    requires OrderedFrom(start, times) && i < |times| && times[|times| - 1] <= now
    ensures Refill(rate, Run(rate, start, times), now) <= Slack(rate, start, times, i, now)
  {
    hide Earned;
    var init, last := times[..|times| - 1], times[|times| - 1];
    InitOrdered(start, times);
    if i < |times| - 1 {
      LevelWithinSlack(rate, start, init, i, last);
      SlackStep(rate, start, times, i, now);
    } else {
      assert GrantedSince(rate, start, init, i) == 0;
    }
  }

  /** The level is a full bucket, or exactly the slack left by some earlier call. */
  lemma {:induction false} LevelAttained(rate: nat, start: real, times: seq<real>, now: real) returns (i: nat)
    requires OrderedFrom(start, times) && start <= now && (times != [] ==> times[|times| - 1] <= now)
    ensures i <= |times|
    ensures Refill(rate, Run(rate, start, times), now)
         == if i == |times| then rate as real else Slack(rate, start, times, i, now)
  {
    hide Earned;
    i := |times|;
    if times == [] {
      EarnedAdds(rate, now - start, 0.0);
    } else if Refill(rate, Run(rate, start, times), now) != rate as real {
      var init, last := times[..|times| - 1], times[|times| - 1];
      InitOrdered(start, times);
      i := LevelAttained(rate, start, init, last);
      if i < |init| {
        SlackStep(rate, start, times, i, now);
      } else {
        assert GrantedSince(rate, start, init, i) == 0;
      }
    }
  }

  lemma OrderedAppend(start: real, times: seq<real>, now: real)
    ensures OrderedFrom(start, times + [now]) <==>
      OrderedFrom(start, times) && start <= now && (times != [] ==> times[|times| - 1] <= now)
  {
    var all := times + [now];
    assert all[|times|] == now;
    if OrderedFrom(start, all) {
      forall i | 0 <= i < |times| ensures start <= times[i] <= now { assert all[i] == times[i]; }
      forall i, j | 0 <= i < j < |times| ensures times[i] <= times[j] { assert all[i] <= all[j]; }
    }
  }

  lemma RunAppend(rate: nat, start: real, times: seq<real>, now: real)
    ensures Run(rate, start, times + [now]) == After(rate, Run(rate, start, times), now)
  {
    assert (times + [now])[..|times|] == times;
  }

  /** The calls allowed from call `i` to one more at `now` number at most the rate plus the rate times the
      seconds between them. */
  predicate RoomSince(rate: nat, start: real, times: seq<real>, i: nat, now: real)
    requires i < |times|
  {
    GrantedSince(rate, start, times, i) as real + 1.0 <= rate as real + rate as real * (now - times[i])
  }

  predicate WithinRate(rate: nat, start: real, times: seq<real>, now: real) {
    forall i | 0 <= i < |times| :: RoomSince(rate, start, times, i, now)
  }

  lemma RoomIsSlack(rate: nat, start: real, times: seq<real>, i: nat, now: real)
    requires i < |times|
    ensures RoomSince(rate, start, times, i, now) <==> Slack(rate, start, times, i, now) >= 1.0
  {
    hide GrantedSince;
    EarnedPerSecond(rate, now - times[i]);
  }

  /** A call is allowed exactly when, counting it, no stretch of calls that ends with it holds more
      than the rate plus the rate times its length. */
  lemma GrantedExactly(rate: nat, start: real, times: seq<real>, now: real)
    requires rate > 0 && OrderedFrom(start, times + [now])
    ensures Grants(rate, Run(rate, start, times), now) <==> WithinRate(rate, start, times, now)
  {
    hide RoomSince, Slack, Run, Refill;
    OrderedAppend(start, times, now);
    var level := Refill(rate, Run(rate, start, times), now);
    if level >= 1.0 {
      forall i | 0 <= i < |times| ensures RoomSince(rate, start, times, i, now) {
        LevelWithinSlack(rate, start, times, i, now);
        RoomIsSlack(rate, start, times, i, now);
      }
    } else {
      var k := LevelAttained(rate, start, times, now);
      RoomIsSlack(rate, start, times, k, now);
      assert !RoomSince(rate, start, times, k, now);
    }
  }

  class RateLimiter {
    const rate: nat
    var tokens: real
    var last: real

    /** When the bucket was made, and every call served while limiting is on. */
    ghost const start: real
    ghost var calls: seq<real>
    ghost var latest: real

    ghost predicate Valid()
      reads this
    {
      && start <= latest && OrderedFrom(start, calls) && (forall i | 0 <= i < |calls| :: calls[i] <= latest)
      && Bucket(tokens, last) == Run(rate, start, calls)
    }

    constructor (rate: nat, now: real)
      ensures Valid() && this.rate == rate && start == latest == now && calls == []
    {
      this.rate := rate;
      tokens := rate as real;
      last := now;
      start := now;
      calls := [];
      latest := now;
    }

    /** Takes a token if there is one; a zero rate means no limit. */
    method Allow(now: real) returns (ok: bool)
      requires Valid() && latest <= now
      modifies this
      ensures Valid() && latest == now
      ensures rate == 0 ==> ok && calls == old(calls)
      ensures rate > 0 ==> calls == old(calls) + [now] && ok == Grants(rate, Run(rate, start, old(calls)), now)
      ensures rate > 0 ==> (ok <==> WithinRate(rate, start, old(calls), now))
      ensures 0.0 <= tokens <= rate as real
    {
      hide Earned, Run, WithinRate;
      latest := now;
      if rate == 0 {
        TokensBounded(rate, start, calls);
        return true;
      }
      var elapsed := now - last;
      last := now;
      var full := tokens + Earned(rate, elapsed);
      tokens := if full <= rate as real then full else rate as real;
      ok := tokens >= 1.0;
      if ok {
        tokens := tokens - 1.0;
      }
      RunAppend(rate, start, calls, now);
      OrderedAppend(start, calls, now);
      GrantedExactly(rate, start, calls, now);
      calls := calls + [now];
      TokensBounded(rate, start, calls);
    }
  }
}
