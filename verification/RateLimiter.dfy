/**
 The token bucket of rpc/src/rpc_rate_limiter.cc, with whole tokens, whole milliseconds and calls
 one after the other.
 */
module RateLimiter {

  // Division as in C++: the quotient is rounded towards zero.
  function Quotient(n: int, d: int): int
    requires d > 0
  {
    if n >= 0 then n / d else -(-n / d)
  }

  datatype Bucket = Bucket(qps: int, tokens: int, last: int)

  datatype Call = Call(now: int, permits: int)

  function Refill(b: Bucket, now: int): Bucket {
    var more := Quotient((now - b.last) * b.qps, 1000);
    if more > 0 then b.(tokens := if b.tokens + more < b.qps then b.tokens + more else b.qps, last := now) else b
  }

  predicate Grants(b: Bucket, c: Call) {
    c.permits > 0 && b.qps > 0 && Refill(b, c.now).tokens >= c.permits
  }

  function After(b: Bucket, c: Call): Bucket {
    if c.permits <= 0 || b.qps <= 0 then b
    else
      var r := Refill(b, c.now);
      if r.tokens >= c.permits then r.(tokens := r.tokens - c.permits) else r
  }

  class RateLimiter {
    var qps: int
    var tokens: int
    var lastRefillTime: int

    constructor (rate: int, now: int)
      ensures State() == Bucket(rate, rate, now)
    {
      qps, tokens, lastRefillTime := rate, rate, now;
    }

    function State(): Bucket
      reads this
    {
      Bucket(qps, tokens, lastRefillTime)
    }

    // try_acquire at time `now`
    method TryAcquire(permits: int, now: int) returns (ok: bool)
      modifies this`tokens, this`lastRefillTime
      ensures ok == Grants(old(State()), Call(now, permits)) && State() == After(old(State()), Call(now, permits))
      ensures old(Valid(State())) ==>
        (ok <==> 0 < permits <= qps && (old(tokens) >= permits || old(Worth(State(), now)) >= 1000 * permits))
    {
      if Valid(State()) {
        GrantedExactly(State(), Call(now, permits));
      }
      if permits <= 0 || qps <= 0 {
        return false;
      }
      var elapsed := now - lastRefillTime;
      var newTokens := Quotient(elapsed * qps, 1000);
      if newTokens > 0 {
        var updated := if tokens + newTokens < qps then tokens + newTokens else qps;
        tokens := updated;
        lastRefillTime := now;
      }
      // Nobody interferes, so the compare-and-exchange succeeds.
      if tokens >= permits {
        tokens := tokens - permits;
        return true;
      }
      return false;
    }
  }

  /* ---------- the bound ---------- */

  ghost predicate Valid(b: Bucket) {
    b.qps > 0 && 0 <= b.tokens <= b.qps
  }

  // There are never fewer than no tokens nor more than the rate.
  lemma TokensInRange(b: Bucket, c: Call)
    requires Valid(b)
    ensures Valid(After(b, c)) && After(b, c).qps == b.qps
  {
  }

  function Run(b: Bucket, calls: seq<Call>): Bucket
    decreases |calls|
  {
    if calls == [] then b else Run(After(b, calls[0]), calls[1..])
  }

  function Granted(b: Bucket, calls: seq<Call>): int
    decreases |calls|
  {
    if calls == [] then 0
    else (if Grants(b, calls[0]) then calls[0].permits else 0) + Granted(After(b, calls[0]), calls[1..])
  }

  ghost predicate Ticking(from: int, calls: seq<Call>)
    decreases |calls|
  {
    calls == [] || (from <= calls[0].now && Ticking(calls[0].now, calls[1..]))
  }

  // What the bucket is worth at a time: its tokens and the part of a token on its way.
  function Worth(b: Bucket, now: int): int {
    1000 * b.tokens + (now - b.last) * b.qps
  }

  // Refilling adds nothing to the worth, and leaves less than the rate and one token more.
  lemma RefillWorth(b: Bucket, now: int)
    requires Valid(b) && b.last <= now
    ensures var r := Refill(b, now);
      Valid(r) && r.last <= now && Worth(r, now) <= Worth(b, now) && Worth(r, now) < 1000 * (b.qps + 1)
  {
    Scale(0, now - b.last, b.qps);
    Rounded((now - b.last) * b.qps);
    hide Quotient;
    assert (now - now) * b.qps == 0;
  }

  lemma Rounded(n: int)
    requires n >= 0
    ensures 0 <= Quotient(n, 1000) && Quotient(n, 1000) * 1000 <= n < Quotient(n, 1000) * 1000 + 1000
  {
  }

  // A call takes its permits out of the worth; time puts in the rate.
  lemma CallWorth(b: Bucket, c: Call)
    requires Valid(b) && b.last <= c.now
    ensures var u := After(b, c);
      && Valid(u) && u.qps == b.qps && u.last <= c.now
      && Worth(u, c.now) + 1000 * (if Grants(b, c) then c.permits else 0) <= Worth(b, c.now)
      && 0 <= Worth(u, c.now)
  {
    RefillWorth(b, c.now);
    var r := Refill(b, c.now);
    assert Grants(b, c) ==> Worth(r.(tokens := r.tokens - c.permits), c.now) == Worth(r, c.now) - 1000 * c.permits;
    assert (c.now - After(b, c).last) * b.qps >= 0;
  }

  lemma Later(b: Bucket, from: int, to: int)
    ensures Worth(b, to) == Worth(b, from) + (to - from) * b.qps
  {
    assert (to - b.last) * b.qps == (from - b.last) * b.qps + (to - from) * b.qps;
  }

  function LastTime(from: int, calls: seq<Call>): int {
    if calls == [] then from else calls[|calls| - 1].now
  }

  lemma Spans(x: int, y: int, z: int, k: int)
    ensures (z - x) * k == (z - y) * k + (y - x) * k
  {
  }

  lemma {:induction false} GrantedWithin(b: Bucket, from: int, calls: seq<Call>)
    requires Valid(b) && b.last <= from && Ticking(from, calls)
    ensures 1000 * Granted(b, calls) <= Worth(b, from) + (LastTime(from, calls) - from) * b.qps
    decreases |calls|
  {
    if calls == [] {
      assert (from - b.last) * b.qps >= 0;
    } else {
      var c := calls[0];
      Later(b, from, c.now);
      CallWorth(b, c);
      hide Worth, After, Grants;
      GrantedWithin(After(b, c), c.now, calls[1..]);
      assert LastTime(c.now, calls[1..]) == LastTime(from, calls);
      Spans(from, c.now, LastTime(from, calls), b.qps);
    }
  }

  // Whatever happened before, a window of `w` milliseconds grants fewer permits than the rate and
  // one more, and the rate times its length.
  lemma {:induction false} WindowBound(b: Bucket, calls: seq<Call>, w: int)
    requires Valid(b) && calls != [] && b.last <= calls[0].now && Ticking(calls[0].now, calls)
    requires LastTime(0, calls) - calls[0].now <= w
    ensures 1000 * Granted(b, calls) < 1000 * (b.qps + 1) + b.qps * w
    decreases |calls|
  {
    var t, rest := calls[0].now, calls[1..];
    var d := LastTime(t, calls) - t;
    TicksOn(t, calls);
    assert 0 <= d && d * b.qps <= b.qps * w by { Scale(d, w, b.qps); }
    if calls[0].permits > 0 {
      RefillWorth(b, t);
      RefillTwice(b, t);
      hide Worth, Refill;
      GrantedWithin(Refill(b, t), t, calls);
    } else if rest != [] {
      assert LastTime(0, rest) == LastTime(0, calls);
      WindowBound(b, rest, w);
    }
  }

  lemma Scale(d: int, w: int, k: int)
    requires d <= w && k > 0
    ensures d * k <= k * w
  {
  }

  lemma {:induction false} TicksOn(from: int, calls: seq<Call>)
    requires Ticking(from, calls)
    ensures from <= LastTime(from, calls)
    decreases |calls|
  {
    if calls != [] {
      TicksOn(calls[0].now, calls[1..]);
      assert LastTime(calls[0].now, calls[1..]) == LastTime(from, calls);
    }
  }

  // Refilling again at the same time changes nothing.
  lemma RefillTwice(b: Bucket, now: int)
    requires Valid(b) && b.last <= now
    ensures Refill(Refill(b, now), now) == Refill(b, now)
  {
    assert (now - now) * b.qps == 0;
  }

  // After a second without calls the bucket is full.
  lemma FullAfterASecond(b: Bucket, now: int)
    requires Valid(b) && now - b.last >= 1000
    ensures Refill(b, now).tokens == b.qps
  {
    Scale(1000, now - b.last, b.qps);
    assert (now - b.last) * b.qps / 1000 >= b.qps;
  }

  lemma {:induction false} TickingParts(from: int, a: seq<Call>, b: seq<Call>)
    requires Ticking(from, a + b)
    ensures Ticking(from, a) && Ticking(LastTime(from, a), b)
    decreases |a|
  {
    if a == [] {
      assert a + b == b;
    } else {
      assert (a + b)[1..] == a[1..] + b;
      TickingParts(a[0].now, a[1..], b);
      assert LastTime(a[0].now, a[1..]) == LastTime(from, a);
    }
  }

  lemma {:induction false} RunKeeps(b: Bucket, from: int, calls: seq<Call>)
    requires Valid(b) && b.last <= from && Ticking(from, calls)
    ensures var u := Run(b, calls);
      Valid(u) && u.qps == b.qps && u.last <= LastTime(from, calls)
    decreases |calls|
  {
    if calls != [] {
      var c := calls[0];
      CallWorth(b, c);
      RunKeeps(After(b, c), c.now, calls[1..]);
      assert LastTime(c.now, calls[1..]) == LastTime(from, calls);
    }
  }

  // Over a whole run of a limiter: the tokens stay in range, and every window keeps to the bound.
  lemma EveryWindow(qps: int, start: int, before: seq<Call>, window: seq<Call>, w: int)
    requires qps > 0 && Ticking(start, before + window) && window != []
    requires LastTime(0, window) - window[0].now <= w
    ensures 0 <= Run(Bucket(qps, qps, start), before).tokens <= qps
    ensures 1000 * Granted(Run(Bucket(qps, qps, start), before), window) < 1000 * (qps + 1) + qps * w
  {
    TickingParts(start, before, window);
    RunKeeps(Bucket(qps, qps, start), start, before);
    WindowBound(Run(Bucket(qps, qps, start), before), window, w);
  }

  /* ---------- what a caller gets ---------- */

  // A call is granted exactly when the bucket holds its permits, or is worth them by now; asking for
  // more than the rate, or for nothing, never succeeds.
  lemma GrantedExactly(b: Bucket, c: Call)
    requires Valid(b)
    ensures Grants(b, c) <==>
      0 < c.permits <= b.qps && (b.tokens >= c.permits || Worth(b, c.now) >= 1000 * c.permits)
  {
    var n := (c.now - b.last) * b.qps;
    if n >= 0 {
      Rounded(n);
    } else {
      assert Quotient(n, 1000) <= 0;
    }
    hide Quotient;
  }

  // A call for nothing is refused and changes nothing, and a limiter without a rate refuses all.
  lemma NothingForNothing(b: Bucket, c: Call)
    requires c.permits <= 0 || b.qps <= 0
    ensures !Grants(b, c) && After(b, c) == b
  {
  }

  // What the bucket will yield at least: a refill is cut down to whole tokens, and can lose nearly
  // as much as it adds.
  function Yield(b: Bucket, now: int): int {
    2000 * b.tokens + (now - b.last) * b.qps
  }

  // Rounding loses less than a token, unless the bucket is full.
  lemma RefillLoses(b: Bucket, now: int)
    requires Valid(b) && b.last <= now
    ensures var r := Refill(b, now);
      && (r.tokens < b.qps ==> Worth(r, now) > Worth(b, now) - 1000)
      && (now - r.last) * b.qps < 1000
      && (r.tokens < b.qps ==> Yield(r, now) >= Yield(b, now))
  {
    Scale(0, now - b.last, b.qps);
    Rounded((now - b.last) * b.qps);
    hide Quotient;
    assert (now - now) * b.qps == 0;
  }

  lemma CallYield(b: Bucket, c: Call)
    requires Valid(b) && b.last <= c.now && Refill(b, c.now).tokens < b.qps
    ensures Yield(After(b, c), c.now) + 2000 * (if Grants(b, c) then c.permits else 0) >= Yield(b, c.now)
  {
    RefillLoses(b, c.now);
  }

  // No call finds the bucket full.
  ghost predicate NeverFull(b: Bucket, calls: seq<Call>)
    decreases |calls|
  {
    calls == [] || (Refill(b, calls[0].now).tokens < b.qps && NeverFull(After(b, calls[0]), calls[1..]))
  }

  lemma {:induction false} YieldIsGranted(b: Bucket, from: int, calls: seq<Call>)
    requires Valid(b) && b.last <= from && Ticking(from, calls) && NeverFull(b, calls)
    ensures var end := LastTime(from, calls);
      2000 * Granted(b, calls) + Yield(Run(b, calls), end) >= Yield(b, from) + (end - from) * b.qps
    decreases |calls|
  {
    if calls != [] {
      var c, end := calls[0], LastTime(from, calls);
      assert LastTime(c.now, calls[1..]) == end;
      Spans(b.last, from, c.now, b.qps);
      Spans(from, c.now, end, b.qps);
      CallWorth(b, c);
      CallYield(b, c);
      YieldIsGranted(After(b, c), c.now, calls[1..]);
    }
  }

  lemma {:induction false} OneMore(b: Bucket, calls: seq<Call>, c: Call)
    ensures Run(b, calls + [c]) == After(Run(b, calls), c)
    ensures Granted(b, calls + [c]) == Granted(b, calls) + if Grants(Run(b, calls), c) then c.permits else 0
    ensures NeverFull(b, calls + [c]) ==> Refill(Run(b, calls), c.now).tokens < Run(b, calls).qps
    decreases |calls|
  {
    if calls == [] {
      assert [] + [c] == [c];
    } else {
      assert (calls + [c])[1..] == calls[1..] + [c];
      OneMore(After(b, calls[0]), calls[1..], c);
    }
  }

  lemma RefusedLeaves(u: Bucket, c: Call)
    requires Valid(u) && u.last <= c.now && 0 < c.permits && !Grants(u, c)
    ensures Yield(After(u, c), c.now) < 2000 * c.permits
  {
    RefillLoses(u, c.now);
    assert After(u, c) == Refill(u, c.now) && Refill(u, c.now).tokens < c.permits;
    hide Refill;
  }

  lemma YieldAtLeast(b: Bucket, now: int)
    requires Valid(b) && b.last <= now
    ensures Yield(b, now) >= 0
  {
    Scale(0, now - b.last, b.qps);
  }

  // A client that is refused in the end, and never let the bucket fill up, has got at least half of
  // the rate over the time, less what it was refused.
  lemma AtLeastHalf(b: Bucket, from: int, calls: seq<Call>, c: Call)
    requires Valid(b) && b.last <= from && Ticking(from, calls + [c]) && NeverFull(b, calls + [c])
    requires 0 < c.permits && !Grants(Run(b, calls), c)
    ensures 2000 * (Granted(b, calls) + c.permits) > b.qps * (c.now - from)
  {
    var u := Run(b, calls);
    TickingParts(from, calls, [c]);
    TicksOn(LastTime(from, calls), [c]);
    RunKeeps(b, from, calls);
    OneMore(b, calls, c);
    YieldIsGranted(b, from, calls + [c]);
    RefusedLeaves(u, c);
    YieldAtLeast(b, from);
    assert LastTime(from, calls + [c]) == c.now;
    hide *;
    assert b.qps * (c.now - from) == (c.now - from) * b.qps;
  }

  // One permit asked for in every millisecond, for 2 * n of them.
  function EveryMillisecond(from: int, n: nat): seq<Call>
    decreases n
  {
    if n == 0 then [] else [Call(from + 1, 1), Call(from + 2, 1)] + EveryMillisecond(from + 2, n - 1)
  }

  // And it may be no more than half: at 999 permits in a second, such a client is granted every other
  // call, 500 in a second.
  lemma {:induction false} HalfIsLost(from: int, n: nat)
    ensures Granted(Bucket(999, 0, from), EveryMillisecond(from, n)) == n
    decreases n
  {
    if n > 0 {
      var b, calls := Bucket(999, 0, from), EveryMillisecond(from, n);
      assert After(b, Call(from + 1, 1)) == b && !Grants(b, Call(from + 1, 1));
      assert After(b, Call(from + 2, 1)) == Bucket(999, 0, from + 2) && Grants(b, Call(from + 2, 1));
      assert calls[1..] == [Call(from + 2, 1)] + EveryMillisecond(from + 2, n - 1);
      assert calls[1..][1..] == EveryMillisecond(from + 2, n - 1);
      HalfIsLost(from + 2, n - 1);
    }
  }
}
