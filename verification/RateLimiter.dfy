/**
 The fixed-window rate limiter, with time in nanoseconds since the zero time.
 */
module RateLimiter {

  datatype Bucket = Bucket(windowStart: nat, count: nat)

  type Buckets = map<string, Bucket>

  const MINUTE: nat := 60_000_000_000

  function WindowOf(window: int): (w: nat)
    ensures w > 0
  {
    if window <= 0 then MINUTE else window
  }

  /** The start of the aligned window that `now` is in. */
  function Truncate(now: nat, w: nat): nat
    requires w > 0
  {
    now - now % w
  }

  /** The bucket a call counts in: a stored bucket of another window, or one at the zero time, is started afresh. */
  function CurrentBucket(buckets: Buckets, key: string, start: nat): Bucket {
    if key in buckets && buckets[key].windowStart != 0 &&
      buckets[key].windowStart == start then buckets[key] else Bucket(start, 0)
  }

  /** The buckets after one call, and whether it is allowed. */
  function Step(buckets: Buckets, key: string, max: int, window: int, now: nat): (Buckets, bool) {
    if max <= 0 then (buckets, true)
    else
      var bucket := CurrentBucket(buckets, key, Truncate(now, WindowOf(window)));
      if bucket.count >= max then (buckets[key := bucket], false)
      else (buckets[key := bucket.(count := bucket.count + 1)], true)
  }

  class Limiter {
    var buckets: Buckets

    constructor ()
      ensures buckets == map[]
    {
      buckets := map[];
    }

    method Allow(key: string, max: int, window: int, now: nat) returns (ok: bool)
      modifies this
      ensures (buckets, ok) == Step(old(buckets), key, max, window, now)
    {
      if max <= 0 { return true; }
      var w := if window <= 0 then MINUTE else window;
      var start := now - now % w;
      var bucket := if key in buckets then buckets[key] else Bucket(0, 0);
      if bucket.windowStart == 0 || bucket.windowStart != start {
        bucket := Bucket(start, 0);
      }
      if bucket.count >= max {
        buckets := buckets[key := bucket];
        return false;
      }
      bucket := bucket.(count := bucket.count + 1);
      buckets := buckets[key := bucket];
      ok := true;
    }
  }

  // ---- Runs with a fixed limit and window ----

  datatype Call = Call(key: string, now: nat)

  function After(calls: seq<Call>, max: int, w: int): Buckets {
    if calls == [] then map[]
    else
      var c := calls[|calls| - 1];
      Step(After(calls[..|calls| - 1], max, w), c.key, max, w, c.now).0
  }

  /** Whether call `i` of a run is allowed. */
  predicate AllowedAt(calls: seq<Call>, i: nat, max: int, w: int)
    requires i < |calls|
  {
    Step(After(calls[..i], max, w), calls[i].key, max, w, calls[i].now).1
  }

  /** Clock readings that never go back. */
  ghost predicate Clocked(calls: seq<Call>) {
    forall i, j | 0 <= i < j < |calls| :: calls[i].now <= calls[j].now
  }

  /** What a window allows of the calls made in it: up to `max` of them, and all in the window at the zero time. */
  function Quota(start: nat, calls: nat, max: int): int {
    if start == 0 then calls else Min(calls, max)
  }

  function Min(a: int, b: int): int {
    if a < b then a else b
  }

  /** Calls on `key` in the aligned window that starts at `start`. */
  function CallsIn(calls: seq<Call>, key: string, start: nat, w: nat): nat
    requires w > 0
  {
    if calls == [] then 0
    else
      var c := calls[|calls| - 1];
      CallsIn(calls[..|calls| - 1], key, start, w) + (if c.key == key && Truncate(c.now, w) == start then 1 else 0)
  }

  /** Allowed calls on `key` with clock reading in `[lo, hi)`. */
  function AllowedIn(calls: seq<Call>, key: string, lo: int, hi: int, max: int, w: int): nat {
    if calls == [] then 0
    else
      var n := |calls| - 1;
      AllowedIn(calls[..n], key, lo, hi, max, w)
        + (if calls[n].key == key && lo <= calls[n].now < hi && AllowedAt(calls, n, max, w) then 1 else 0)
  }

  lemma AtLeastOneWindow(d: int, w: nat)
    requires d >= 1
    ensures d * w >= w
  {
    assert (d - 1) * w >= 0;
  }

  lemma RemainderIsUnique(now: nat, j: nat, r: nat, w: nat)
    requires r < w && now == j * w + r
    ensures now % w == r
  {
    var q := now / w;
    assert now == q * w + now % w;
    assert (q - j) * w == r - now % w;
    if q > j { AtLeastOneWindow(q - j, w); }
    if q < j { AtLeastOneWindow(j - q, w); }
  }

  /** Aligned windows: a reading truncates to window `j`'s start when it lies in that window. */
  lemma InWindow(now: nat, j: nat, w: nat)
    requires w > 0
    ensures Truncate(now, w) == j * w <==> j * w <= now < j * w + w
  {
    if j * w <= now < j * w + w { RemainderIsUnique(now, j, now - j * w, w); }
  }

  lemma TruncateAligned(now: nat, w: nat)
    requires w > 0
    ensures Truncate(now, w) == (now / w) * w && Truncate(now, w) <= now < Truncate(now, w) + w
  {
  }

  lemma TruncateMonotone(a: nat, b: nat, w: nat)
    requires w > 0 && a <= b
    ensures Truncate(a, w) <= Truncate(b, w)
    ensures a >= w ==> Truncate(a, w) > 0
  {
    TruncateAligned(a, w);
    TruncateAligned(b, w);
    InWindow(a, b / w, w);
  }

  /** The window of the last call on `key`, or -1. */
  function LastStart(calls: seq<Call>, key: string, w: nat): int
    requires w > 0
  {
    if calls == [] then -1
    else if calls[|calls| - 1].key == key then Truncate(calls[|calls| - 1].now, w)
    else LastStart(calls[..|calls| - 1], key, w)
  }

  lemma {:induction false} LastStartIsLatest(calls: seq<Call>, key: string, w: nat, now: nat, start: nat)
    requires w > 0 && Clocked(calls)
    requires forall i | 0 <= i < |calls| :: calls[i].now <= now
    ensures LastStart(calls, key, w) <= Truncate(now, w)
    ensures CallsIn(calls, key, start, w) > 0 ==> start <= LastStart(calls, key, w)
  {
    if calls != [] {
      var n := |calls| - 1;
      TruncateMonotone(calls[n].now, now, w);
      LastStartIsLatest(calls[..n], key, w, calls[n].now, start);
    }
  }

  /**
   What a key's bucket says after a run: the window of its last call and, past the zero time, its calls there up to the
   limit.
   */
  predicate BucketSays(calls: seq<Call>, key: string, max: int, w: nat)
    requires w > 0 && max > 0
  {
    var l, buckets := LastStart(calls, key, w), After(calls, max, w);
    if l < 0 then key !in buckets
    else
      && key in buckets && buckets[key].windowStart == l
      && (l > 0 ==> buckets[key].count == Min(CallsIn(calls, key, l, w), max))
  }

  lemma BucketOfNext(calls: seq<Call>, key: string, now: nat, max: int, w: nat)
    requires max > 0 && w > 0 && Clocked(calls)
    requires forall i | 0 <= i < |calls| :: calls[i].now <= now
    requires BucketSays(calls, key, max, w)
    ensures var start := Truncate(now, w);
      CurrentBucket(After(calls, max, w), key, start) ==
      Bucket(start, if start == 0 then 0 else Min(CallsIn(calls, key, start, w), max))
  {
    LastStartIsLatest(calls, key, w, now, Truncate(now, w));
  }

  lemma {:induction false} BucketsSay(calls: seq<Call>, key: string, max: int, w: nat)
    requires max > 0 && w > 0 && Clocked(calls)
    ensures BucketSays(calls, key, max, w)
  {
    if calls != [] {
      var n := |calls| - 1;
      BucketsSay(calls[..n], key, max, w);
      if calls[n].key == key { BucketOfNext(calls[..n], key, calls[n].now, max, w); }
    }
  }

  /**
   Call `n` is allowed exactly when it is in the window at the zero time or fewer than `max` earlier calls on its key
   fall in its window.
   */
  lemma AllowedExactly(calls: seq<Call>, n: nat, max: int, w: nat)
    requires max > 0 && w > 0 && Clocked(calls) && n < |calls|
    ensures var start := Truncate(calls[n].now, w);
      AllowedAt(calls, n, max, w) <==> start == 0 || CallsIn(calls[..n], calls[n].key, start, w) < max
  {
    BucketsSay(calls[..n], calls[n].key, max, w);
    BucketOfNext(calls[..n], calls[n].key, calls[n].now, max, w);
  }

  lemma AllowedPrefix(calls: seq<Call>, more: Call, i: nat, max: int, w: int)
    requires i < |calls|
    ensures AllowedAt(calls + [more], i, max, w) == AllowedAt(calls, i, max, w)
  {
    assert (calls + [more])[..i] == calls[..i];
  }

  /**
   In each aligned window a key is allowed as many calls as it makes, up to `max`; in the one at the zero time, all.
   */
  lemma {:induction false} WindowLaw(calls: seq<Call>, key: string, j: nat, max: int, w: nat)
    requires max > 0 && w > 0 && Clocked(calls)
    ensures AllowedIn(calls, key, j * w, j * w + w, max, w) == Quota(j * w, CallsIn(calls, key, j * w, w), max)
  {
    if calls != [] {
      var n := |calls| - 1;
      WindowLaw(calls[..n], key, j, max, w);
      AllowedExactly(calls, n, max, w);
      InWindow(calls[n].now, j, w);
    }
  }

  lemma {:induction false} HalvesCover(calls: seq<Call>, key: string, lo: int, hi: int, a: int, b: int, c: int,
      max: int, w: int)
    requires a <= lo && hi <= c
    ensures AllowedIn(calls, key, lo, hi, max, w)
         <= AllowedIn(calls, key, a, b, max, w) + AllowedIn(calls, key, b, c, max, w)
  {
    if calls != [] { HalvesCover(calls[..|calls| - 1], key, lo, hi, a, b, c, max, w); }
  }

  /**
   Any interval as long as the window, after the one at the zero time, holds at most twice `max` allowed calls of a key.
   */
  lemma IntervalBound(calls: seq<Call>, key: string, lo: nat, max: int, w: nat)
    requires max > 0 && w > 0 && Clocked(calls) && lo >= w
    ensures AllowedIn(calls, key, lo, lo + w, max, w) <= 2 * max
  {
    var j := lo / w;
    TruncateAligned(lo, w);
    assert (j + 1) * w == j * w + w;
    HalvesCover(calls, key, lo, lo + w, j * w, j * w + w, j * w + w + w, max, w);
    WindowLaw(calls, key, j, max, w);
    WindowLaw(calls, key, j + 1, max, w);
  }

  // ---- The bound is reached ----

  function Repeat(c: Call, n: nat): seq<Call> {
    seq(n, _ => c)
  }

  lemma {:induction false} AllOfKey(calls: seq<Call>, key: string, start: nat, w: nat, n: nat)
    requires w > 0 && n <= |calls|
    requires forall i | 0 <= i < n :: Truncate(calls[i].now, w) != start
    requires forall i | n <= i < |calls| :: calls[i].key == key && Truncate(calls[i].now, w) == start
    ensures CallsIn(calls, key, start, w) == |calls| - n
  {
    if calls != [] {
      var m := |calls| - 1;
      AllOfKey(calls[..m], key, start, w, if n <= m then n else m);
    }
  }

  lemma {:induction false} AllAllowed(calls: seq<Call>, key: string, lo: nat, hi: nat, max: int, w: int)
    requires forall i | 0 <= i < |calls| ::
      calls[i].key == key && lo <= calls[i].now < hi && AllowedAt(calls, i, max, w)
    ensures AllowedIn(calls, key, lo, hi, max, w) == |calls|
  {
    if calls != [] {
      var n := |calls| - 1;
      var init := calls[..n];
      forall i | 0 <= i < n
        ensures AllowedAt(init, i, max, w)
      {
        assert calls == init + [calls[n]];
        AllowedPrefix(init, calls[n], i, max, w);
      }
      AllAllowed(init, key, lo, hi, max, w);
    }
  }

  function Bursts(key: string, t0: nat, t1: nat, max: nat): seq<Call> {
    Repeat(Call(key, t0), max) + Repeat(Call(key, t1), max)
  }

  lemma BurstAllowed(key: string, t0: nat, t1: nat, max: nat, w: nat, i: nat)
    requires max > 0 && w > 0 && w <= t0 <= t1 && Truncate(t0, w) != Truncate(t1, w) && i < 2 * max
    ensures AllowedAt(Bursts(key, t0, t1, max), i, max, w)
  {
    var calls := Bursts(key, t0, t1, max);
    AllOfKey(calls[..i], key, Truncate(calls[i].now, w), w, if i < max then 0 else max);
    AllowedExactly(calls, i, max, w);
  }

  /** `max` calls at one time and `max` at a later one, in different windows, are all allowed. */
  lemma TwoBursts(key: string, t0: nat, t1: nat, max: nat, w: nat, hi: nat)
    requires max > 0 && w > 0 && w <= t0 <= t1 < hi && Truncate(t0, w) != Truncate(t1, w)
    ensures AllowedIn(Bursts(key, t0, t1, max), key, t0, hi, max, w) == 2 * max
  {
    var calls := Bursts(key, t0, t1, max);
    forall i | 0 <= i < |calls|
      ensures AllowedAt(calls, i, max, w)
    {
      BurstAllowed(key, t0, t1, max, w, i);
    }
    AllAllowed(calls, key, t0, hi, max, w);
  }

  /** `max` calls at the end of one window and `max` at the start of the next: the interval bound is reached. */
  lemma BoundIsReached(key: string, max: nat, w: nat) returns (calls: seq<Call>, lo: nat)
    requires max > 0 && w >= 2
    ensures Clocked(calls) && AllowedIn(calls, key, lo, lo + w, max, w) == 2 * max
  {
    lo := 2 * w - 1;
    InWindow(lo, 1, w);
    InWindow(2 * w, 2, w);
    calls := Bursts(key, lo, 2 * w, max);
    TwoBursts(key, lo, 2 * w, max, w, lo + w);
  }

  // ---- Keys do not affect each other ----

  function Only(calls: seq<Call>, key: string): seq<Call> {
    if calls == [] then []
    else
      var n := |calls| - 1;
      Only(calls[..n], key) + (if calls[n].key == key then [calls[n]] else [])
  }

  predicate SameBucket(a: Buckets, b: Buckets, key: string) {
    (key in a <==> key in b) && (key in a ==> a[key] == b[key])
  }

  /**
   A key's bucket, and so every answer it gets, depends on its own calls only, whatever the limit, window and clock.
   */
  lemma {:induction false} KeysAreIndependent(calls: seq<Call>, key: string, max: int, w: int)
    ensures SameBucket(After(calls, max, w), After(Only(calls, key), max, w), key)
    ensures forall now: nat ::
      Step(After(calls, max, w), key, max, w, now).1 == Step(After(Only(calls, key), max, w), key, max, w, now).1
  {
    if calls != [] {
      var n := |calls| - 1;
      KeysAreIndependent(calls[..n], key, max, w);
      if calls[n].key == key {
        assert Only(calls, key)[..|Only(calls, key)| - 1] == Only(calls[..n], key);
      } else {
        assert Only(calls, key) == Only(calls[..n], key);
      }
    }
  }

  /** In the window at the zero time nothing is limited. */
  lemma FirstWindowUnlimited(calls: seq<Call>, n: nat, max: int, w: nat)
    requires w > 0 && n < |calls| && calls[n].now < w
    ensures AllowedAt(calls, n, max, w)
  {
    assert Truncate(calls[n].now, w) == 0;
  }
}
