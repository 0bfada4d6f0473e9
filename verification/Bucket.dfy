/** The token bucket that limits fresh clips (internal/core/bucket.go). Times are nanoseconds; float64 is `real`. */
module TokenBucket {
  import opened Base

  const SECOND: int := 1_000_000_000

  /** Tokens refilled between two instants. */
  function Earned(rate: real, from: int, to: int): (r: real) {
    (to - from) as real / SECOND as real * rate
  }

  lemma EarnedAdds(rate: real, a: int, b: int, c: int)
    ensures Earned(rate, a, c) == Earned(rate, a, b) + Earned(rate, b, c)
  {
    var x, y := (b - a) as real / SECOND as real, (c - b) as real / SECOND as real;
    assert (c - a) as real / SECOND as real == x + y;
  }

  lemma EarnedGrows(rate: real, a: int, b: int, c: int)
    requires 0.0 < rate && a <= b
    ensures Earned(rate, a, c) >= Earned(rate, b, c)
    ensures Earned(rate, a, b) >= 0.0
  {
    var x := (b - a) as real / SECOND as real;
    assert x >= 0.0;
    EarnedAdds(rate, a, b, c);
  }

  /** How many of the granted times are at or after `instant`. */
  function Since(grants: seq<int>, instant: int): (n: nat)
    ensures n <= |grants|
  {
    if grants == [] then 0
    else Since(grants[..|grants| - 1], instant) + if grants[|grants| - 1] >= instant then 1 else 0
  }

  lemma SinceStep(grants: seq<int>, now: int, instant: int)
    ensures Since(grants + [now], instant) == Since(grants, instant) + if now >= instant then 1 else 0
  {
    assert (grants + [now])[..|grants|] == grants;
  }

  lemma {:induction false} SinceNone(grants: seq<int>, instant: int)
    requires forall i :: 0 <= i < |grants| ==> grants[i] < instant
    ensures Since(grants, instant) == 0
  {
    if grants != [] { SinceNone(grants[..|grants| - 1], instant); }
  }

  lemma {:induction false} SinceSorted(grants: seq<int>, i: nat)
    requires i < |grants|
    requires forall a, b :: 0 <= a <= b < |grants| ==> grants[a] <= grants[b]
    ensures Since(grants, grants[i]) >= |grants| - i
  {
    if i < |grants| - 1 { SinceSorted(grants[..|grants| - 1], i); }
  }

  /** The (burst, rate) policy, from the grant times alone: one more grant at `now` keeps every stretch that
      ends now within burst + rate x elapsed. */
  ghost predicate Affordable(burst: int, rate: real, start: int, grants: seq<int>, now: int) {
    forall instant :: start <= instant <= now ==>
      (Since(grants, instant) + 1) as real <= burst as real + Earned(rate, instant, now)
  }

  /** No stretch between two grants holds more of them than the policy pays for. */
  ghost predicate Paced(burst: int, rate: real, grants: seq<int>) {
    && (forall i, j :: 0 <= i <= j < |grants| ==> grants[i] <= grants[j])
    && (forall i, j :: 0 <= i <= j < |grants| ==>
      (j - i + 1) as real <= burst as real + Earned(rate, grants[i], grants[j]))
  }

  lemma PacedStep(burst: int, rate: real, start: int, grants: seq<int>, now: int)
    requires Paced(burst, rate, grants)
    requires forall i :: 0 <= i < |grants| ==> start <= grants[i] <= now
    requires start <= now && Affordable(burst, rate, start, grants, now)
    ensures Paced(burst, rate, grants + [now])
  {
    forall i | 0 <= i < |grants|
      ensures (|grants| - i + 1) as real <= burst as real + Earned(rate, grants[i], now)
    {
      SinceSorted(grants, i);
    }
    assert (Since(grants, now) + 1) as real <= burst as real + Earned(rate, now, now);
  }

  /** Balance left, seen from one instant. The real balance is the least of these. */
  ghost function Balance(burst: int, rate: real, grants: seq<int>, instant: int, now: int): real {
    burst as real + Earned(rate, instant, now) - Since(grants, instant) as real
  }

  /** `tokens` is exactly the least balance over all instants since the start. */
  ghost predicate IsLevel(tokens: real, burst: int, rate: real, start: int, grants: seq<int>, now: int) {
    && (forall instant :: start <= instant <= now ==> tokens <= Balance(burst, rate, grants, instant, now))
    && (exists instant :: start <= instant <= now && tokens == Balance(burst, rate, grants, instant, now))
  }

  lemma LevelRefills(tokens: real, burst: int, rate: real, start: int, grants: seq<int>, last: int, now: int)
    requires 0.0 < rate && start <= last <= now
    requires forall i :: 0 <= i < |grants| ==> grants[i] <= last
    requires IsLevel(tokens, burst, rate, start, grants, last)
    ensures IsLevel(RealMin(burst as real, tokens + Earned(rate, last, now)), burst, rate, start, grants, now)
  {
    var refilled := RealMin(burst as real, tokens + Earned(rate, last, now));
    forall instant | start <= instant <= now
      ensures refilled <= Balance(burst, rate, grants, instant, now)
    {
      EarnedAdds(rate, instant, last, now);
      if instant > last {
        SinceNone(grants, instant);
        EarnedGrows(rate, instant, now, now);
      } else {
        assert tokens <= Balance(burst, rate, grants, instant, last);
      }
    }
    var w :| start <= w <= last && tokens == Balance(burst, rate, grants, w, last);
    EarnedAdds(rate, w, last, now);
    if refilled == tokens + Earned(rate, last, now) {
      assert refilled == Balance(burst, rate, grants, w, now);
    } else {
      assert last < now by { EarnedGrows(rate, last, last, last); assert tokens <= Balance(burst, rate, grants, last, last); }
      SinceNone(grants, now);
      assert refilled == Balance(burst, rate, grants, now, now);
    }
  }

  lemma LevelSpends(tokens: real, burst: int, rate: real, start: int, grants: seq<int>, now: int)
    requires IsLevel(tokens, burst, rate, start, grants, now)
    ensures IsLevel(tokens - 1.0, burst, rate, start, grants + [now], now)
  {
    forall instant | start <= instant <= now
      ensures Balance(burst, rate, grants + [now], instant, now) == Balance(burst, rate, grants, instant, now) - 1.0
    {
      SinceStep(grants, now, instant);
    }
    var w :| start <= w <= now && tokens == Balance(burst, rate, grants, w, now);
    assert tokens - 1.0 == Balance(burst, rate, grants + [now], w, now);
  }

  lemma LevelDecides(tokens: real, burst: int, rate: real, start: int, grants: seq<int>, now: int)
    requires IsLevel(tokens, burst, rate, start, grants, now)
    ensures tokens >= 1.0 <==> Affordable(burst, rate, start, grants, now)
  {
    if tokens >= 1.0 {
      forall instant | start <= instant <= now
        ensures (Since(grants, instant) + 1) as real <= burst as real + Earned(rate, instant, now)
      {
        assert tokens <= Balance(burst, rate, grants, instant, now);
      }
    } else {
      var w :| start <= w <= now && tokens == Balance(burst, rate, grants, w, now);
      assert !((Since(grants, w) + 1) as real <= burst as real + Earned(rate, w, now));
    }
  }

  function RealMin(a: real, b: real): real {
    if a <= b then a else b
  }

  class Bucket {
    var tokens: real
    var lastRefill: int
    const capacity: int
    const tokensPerSecond: real
    const start: int
    ghost var grants: seq<int>

    ghost predicate Valid()
      reads this
    {
      && 0 < capacity && 0.0 < tokensPerSecond
      && start <= lastRefill
      && (forall i :: 0 <= i < |grants| ==> start <= grants[i] <= lastRefill)
      && IsLevel(tokens, capacity, tokensPerSecond, start, grants, lastRefill)
      && Paced(capacity, tokensPerSecond, grants)
    }

    /** A non-positive burst or rate panics in the source. */
    constructor (burst: int, rate: real, now: int)
      requires 0 < burst && 0.0 < rate
      ensures Valid() && grants == [] && lastRefill == start == now
      ensures capacity == burst && tokensPerSecond == rate
    {
      tokens := burst as real;
      lastRefill := now;
      capacity := burst;
      tokensPerSecond := rate;
      start := now;
      grants := [];
      new;
      assert tokens == Balance(capacity, tokensPerSecond, grants, now, now);
    }

    method TryAcquire(now: int) returns (ok: bool)
      requires Valid()
      modifies this
      ensures Valid()
      ensures ok <==> old(lastRefill) <= now && Affordable(capacity, tokensPerSecond, start, old(grants), now)
      ensures grants == old(grants) + if ok then [now] else []
      ensures lastRefill == Max(old(lastRefill), now)
    {
      if now < lastRefill {
        return false;
      }
      LevelRefills(tokens, capacity, tokensPerSecond, start, grants, lastRefill, now);
      tokens := RealMin(capacity as real, tokens + Earned(tokensPerSecond, lastRefill, now));
      lastRefill := now;
      LevelDecides(tokens, capacity, tokensPerSecond, start, grants, now);
      if tokens < 1.0 {
        return false;
      }
      LevelSpends(tokens, capacity, tokensPerSecond, start, grants, now);
      PacedStep(capacity, tokensPerSecond, start, grants, now);
      tokens := tokens - 1.0;
      grants := grants + [now];
      ok := true;
    }
  }
}
