/** The inbound rate limiter: one token bucket per key in a bounded map from which
    only full buckets may be evicted. Seconds and tokens are real numbers. */
module InboundLimit {
  import opened Arith

  type Key = seq<byte>

  datatype Bucket = Bucket(tokens: real, last: real)

  function RealMin(a: real, b: real): real { if a <= b then a else b }

  function RealMax(a: real, b: real): real { if a >= b then a else b }

  /** One half to a power; to the 1022nd it is the least normal 64-bit float. */
  function HalfTo(n: nat): (r: real)
    ensures r > 0.0
  {
    if n == 0 then 1.0 else HalfTo(n - 1) / 2.0
  }

  /** A clock reading before the last one counts as no time at all. */
  function Refill(b: Bucket, now: real, rate: real, burst: real): Bucket {
    var dt := if now > b.last then now - b.last else 0.0;
    Bucket(RealMin(b.tokens + dt * rate, burst), now)
  }

  predicate IsFull(b: Bucket, burst: real) { b.tokens >= burst }

  datatype Limiter = Limiter(buckets: map<Key, Bucket>, cap: nat, rate: real, burst: real) {

    /** What the constructor clamps its arguments to. */
    predicate Sound() { cap >= 1 && rate > 0.0 && burst >= 1.0 }

    function Sweep(now: real): Limiter {
      this.(buckets := map k | k in buckets && !IsFull(Refill(buckets[k], now, rate, burst), burst)
                         :: Refill(buckets[k], now, rate, burst))
    }

    function AllowAt(key: Key, now: real): (Limiter, bool) {
      if key in buckets then
        var b := Refill(buckets[key], now, rate, burst);
        if b.tokens < 1.0 then (this.(buckets := buckets[key := b]), false)
        else (this.(buckets := buckets[key := b.(tokens := b.tokens - 1.0)]), true)
      else
        var room := if |buckets| >= cap then Sweep(now) else this;
        if |room.buckets| >= cap then (room, false)
        else (room.(buckets := room.buckets[key := Bucket(burst - 1.0, now)]), true)
    }
  }

  /** The limiter the relay holds. */
  class InboundLimiter {
    var buckets: map<Key, Bucket>
    const cap: nat
    const rate: real
    const burst: real

    ghost function View(): Limiter
      reads this
    {
      Limiter(buckets, cap, rate, burst)
    }

    constructor (rate: real, burst: real, cap: nat)
      ensures View() == Limiter(map[], Max(cap, 1), RealMax(rate, HalfTo(1022)), RealMax(burst, 1.0))
      ensures View().Sound()
    {
      this.buckets := map[];
      this.cap := Max(cap, 1);
      this.rate := RealMax(rate, HalfTo(1022));
      this.burst := RealMax(burst, 1.0);
    }

    method Sweep(now: real)
      modifies this
      ensures View() == old(View()).Sweep(now)
    {
      var kept: map<Key, Bucket> := map[];
      var todo := buckets.Keys;
      while todo != {}
        invariant todo <= buckets.Keys
        invariant buckets == old(buckets)
        invariant kept == map k | k in buckets && k !in todo && !IsFull(Refill(buckets[k], now, rate, burst), burst)
                            :: Refill(buckets[k], now, rate, burst)
        decreases todo
      {
        var k :| k in todo;
        todo := todo - {k};
        var b := Refill(buckets[k], now, rate, burst);
        if !IsFull(b, burst) {
          kept := kept[k := b];
        }
      }
      buckets := kept;
    }

    method AllowAt(key: Key, now: real) returns (ok: bool)
      modifies this
      ensures (View(), ok) == old(View()).AllowAt(key, now)
    {
      if key in buckets {
        var b := Refill(buckets[key], now, rate, burst);
        buckets := buckets[key := b];
        if b.tokens < 1.0 {
          return false;
        }
        buckets := buckets[key := b.(tokens := b.tokens - 1.0)];
        assert buckets == old(buckets)[key := b.(tokens := b.tokens - 1.0)];
        return true;
      }
      if |buckets| >= cap {
        Sweep(now);
        if |buckets| >= cap {
          return false;
        }
      }
      buckets := buckets[key := Bucket(burst - 1.0, now)];
      ok := true;
    }
  }

  // ---- Runs ----------------------------------------------------------------

  datatype Request = Request(key: Key, now: real)

  /** Requests arrive with a non-decreasing clock that starts at `start`. */
  ghost predicate Clocked(rs: seq<Request>, start: real) {
    forall i :: 0 <= i < |rs| ==> Clock(rs, start, i) <= rs[i].now
  }

  /** The reading before request `i`. */
  function Clock(rs: seq<Request>, start: real, i: nat): real
    requires i <= |rs|
  {
    if i == 0 then start else rs[i - 1].now
  }

  function After(l: Limiter, rs: seq<Request>, n: nat): Limiter
    requires n <= |rs|
  {
    if n == 0 then l else After(l, rs, n - 1).AllowAt(rs[n - 1].key, rs[n - 1].now).0
  }

  /** Whether request `i` is let through. */
  function Admitted(l: Limiter, rs: seq<Request>, i: nat): bool
    requires i < |rs|
  {
    After(l, rs, i).AllowAt(rs[i].key, rs[i].now).1
  }

  /** The bucket `key` would have in a map without bounds, charged only for the
      requests actually let through. */
  function Ideal(l: Limiter, rs: seq<Request>, start: real, key: Key, n: nat): Bucket
    requires n <= |rs|
  {
    if n == 0 then Bucket(l.burst, start) else
      var b := Refill(Ideal(l, rs, start, key, n - 1), rs[n - 1].now, l.rate, l.burst);
      if rs[n - 1].key == key && Admitted(l, rs, n - 1) then b.(tokens := b.tokens - 1.0) else b
  }

  // ---- The map agrees with the ideal buckets -------------------------------

  /** Topping up in two steps is topping up at once. */
  lemma RefillTwice(b: Bucket, mid: real, now: real, rate: real, burst: real)
    requires b.last <= mid <= now && rate > 0.0
    ensures Refill(Refill(b, mid, rate, burst), now, rate, burst) == Refill(b, now, rate, burst)
  {
    var x, y := mid - b.last, now - mid;
    assert (x + y) * rate == x * rate + y * rate;
    assert y * rate >= 0.0;
  }

  /** An ideal bucket and the map's entry for its key, as of `now`. */
  predicate Matches(l: Limiter, key: Key, ideal: Bucket, now: real) {
    && ideal.last == now && 0.0 <= ideal.tokens <= l.burst
    && if key in l.buckets
       then l.buckets[key].last <= now && 0.0 <= l.buckets[key].tokens <= l.burst
            && Refill(l.buckets[key], now, l.rate, l.burst) == ideal
       else ideal.tokens == l.burst
  }

  lemma RefillKeepsRange(b: Bucket, now: real, rate: real, burst: real)
    requires 0.0 <= b.tokens <= burst && rate > 0.0
    ensures 0.0 <= Refill(b, now, rate, burst).tokens <= burst
    ensures b.tokens == burst ==> Refill(b, now, rate, burst).tokens == burst
  {
    var dt := if now > b.last then now - b.last else 0.0;
    assert dt * rate >= 0.0;
  }

  /** Time passing, with or without a sweep, keeps the match. */
  lemma SweepMatches(l: Limiter, key: Key, ideal: Bucket, before: real, now: real)
    requires l.Sound() && Matches(l, key, ideal, before) && before <= now
    ensures Matches(l, key, Refill(ideal, now, l.rate, l.burst), now)
    ensures Matches(l.Sweep(now), key, Refill(ideal, now, l.rate, l.burst), now)
  {
    RefillKeepsRange(ideal, now, l.rate, l.burst);
    if key in l.buckets {
      RefillTwice(l.buckets[key], before, now, l.rate, l.burst);
      RefillKeepsRange(l.buckets[key], now, l.rate, l.burst);
      RefillTwice(l.buckets[key], now, now, l.rate, l.burst);
    }
  }

  /** One request, seen from one key. */
  lemma AllowMatches(l: Limiter, r: Request, key: Key, ideal: Bucket, before: real)
    requires l.Sound() && Matches(l, key, ideal, before) && before <= r.now
    ensures var (after, ok) := l.AllowAt(r.key, r.now);
            var full := Refill(ideal, r.now, l.rate, l.burst);
            && (r.key == key && ok ==> full.tokens >= 1.0)
            && (r.key == key && !ok && key in l.buckets ==> full.tokens < 1.0)
            && Matches(after, key, if r.key == key && ok then full.(tokens := full.tokens - 1.0) else full, r.now)
  {
    SweepMatches(l, key, ideal, before, r.now);
    if r.key == key && key in l.buckets {
      var b := Refill(l.buckets[key], r.now, l.rate, l.burst);
      RefillTwice(l.buckets[key], before, r.now, l.rate, l.burst);
      RefillStill(b, l.rate, l.burst);
      RefillStill(b.(tokens := b.tokens - 1.0), l.rate, l.burst);
    }
  }

  lemma RefillStill(b: Bucket, rate: real, burst: real)
    requires b.tokens <= burst
    ensures Refill(b, b.last, rate, burst) == b
  {
  }

  /** The match, and the map's bounds, hold throughout every run. */
  lemma {:induction false} RunMatches(l: Limiter, rs: seq<Request>, start: real, key: Key, n: nat)
    requires l.Sound() && l.buckets == map[] && Clocked(rs, start) && n <= |rs|
    ensures var s := After(l, rs, n);
            && s == l.(buckets := s.buckets)
            && Matches(s, key, Ideal(l, rs, start, key, n), Clock(rs, start, n))
  {
    if n > 0 {
      RunMatches(l, rs, start, key, n - 1);
      assert Clock(rs, start, n - 1) <= rs[n - 1].now;
      AllowMatches(After(l, rs, n - 1), rs[n - 1], key, Ideal(l, rs, start, key, n - 1), Clock(rs, start, n - 1));
    }
  }

  lemma AllowBounded(l: Limiter, r: Request)
    requires l.Sound() && |l.buckets| <= l.cap
    ensures |l.AllowAt(r.key, r.now).0.buckets| <= l.cap
  {
    SweepShrinks(l, r.now);
  }

  /** The map never holds more than its cap. */
  lemma {:induction false} MapStaysBounded(l: Limiter, rs: seq<Request>, n: nat)
    requires l.Sound() && l.buckets == map[] && n <= |rs|
    ensures var s := After(l, rs, n);
            s == l.(buckets := s.buckets) && |s.buckets| <= l.cap
  {
    if n > 0 {
      MapStaysBounded(l, rs, n - 1);
      AllowBounded(After(l, rs, n - 1), rs[n - 1]);
    }
  }

  lemma SweepShrinks(l: Limiter, now: real)
    ensures |l.Sweep(now).buckets| <= |l.buckets|
  {
    SubsetSize(l.Sweep(now).buckets.Keys, l.buckets.Keys);
  }

  lemma SubsetSize<T>(a: set<T>, b: set<T>)
    requires a <= b
    ensures |a| <= |b|
  {
    assert b == a + (b - a);
  }

  /** Eviction never mints budget: a request passes only if its key's ideal
      bucket holds a token; a key that is not in the map has a full ideal bucket;
      and a key in the map is refused only when its ideal bucket is short. */
  lemma EvictionMintsNothing(l: Limiter, rs: seq<Request>, start: real, i: nat)
    requires l.Sound() && l.buckets == map[] && Clocked(rs, start) && i < |rs|
    ensures var ideal := Refill(Ideal(l, rs, start, rs[i].key, i), rs[i].now, l.rate, l.burst);
            && (Admitted(l, rs, i) ==> ideal.tokens >= 1.0)
            && (rs[i].key !in After(l, rs, i).buckets ==> ideal.tokens == l.burst)
            && (rs[i].key in After(l, rs, i).buckets ==> (Admitted(l, rs, i) <==> ideal.tokens >= 1.0))
  {
    var key := rs[i].key;
    RunMatches(l, rs, start, key, i);
    assert Clock(rs, start, i) <= rs[i].now;
    AllowMatches(After(l, rs, i), rs[i], key, Ideal(l, rs, start, key, i), Clock(rs, start, i));
    RefillKeepsRange(Ideal(l, rs, start, key, i), rs[i].now, l.rate, l.burst);
  }

  /** Requests of `key` let through among `first..end`. */
  function Passed(l: Limiter, rs: seq<Request>, key: Key, first: nat, end: nat): nat
    requires first <= end <= |rs|
    decreases end
  {
    if first == end then 0 else
      Passed(l, rs, key, first, end - 1) + One(rs[end - 1].key == key && Admitted(l, rs, end - 1))
  }

  /** What a bucket gains between two readings. */
  function Accrual(rate: real, since: real, now: real): real { rate * (now - since) }

  lemma AccrualAdds(rate: real, a: real, b: real, c: real)
    ensures Accrual(rate, a, c) == Accrual(rate, a, b) + Accrual(rate, b, c)
    ensures Accrual(rate, a, a) == 0.0
  {
  }

  function One(passed: bool): nat { if passed then 1 else 0 }

  /** One request adds at most the accrual to a key's tokens and passes together. */
  lemma IdealStep(l: Limiter, rs: seq<Request>, start: real, key: Key, n: nat)
    requires l.Sound() && l.buckets == map[] && Clocked(rs, start) && n < |rs|
    ensures var spent := One(rs[n].key == key && Admitted(l, rs, n)) as real;
            && Ideal(l, rs, start, key, n + 1).tokens + spent <= l.burst
            && Ideal(l, rs, start, key, n + 1).tokens + spent
                 <= Ideal(l, rs, start, key, n).tokens + Accrual(l.rate, Clock(rs, start, n), rs[n].now)
  {
    RunMatches(l, rs, start, key, n);
    var b, now := Ideal(l, rs, start, key, n), rs[n].now;
    assert b.last == Clock(rs, start, n) <= now;
    RefillAccrues(b, now, l.rate, l.burst);
  }

  lemma RefillAccrues(b: Bucket, now: real, rate: real, burst: real)
    requires b.last <= now
    ensures Refill(b, now, rate, burst).tokens <= burst
    ensures Refill(b, now, rate, burst).tokens <= b.tokens + Accrual(rate, b.last, now)
  {
  }

  /** Passes in a window so far, tokens left, and what the window may still add up to. */
  lemma WindowStep(l: Limiter, rs: seq<Request>, start: real, key: Key, first: nat, n: nat, passed: nat)
    requires l.Sound() && l.buckets == map[] && Clocked(rs, start) && first <= n < |rs|
    requires if first == n then passed == 0
             else passed as real + Ideal(l, rs, start, key, n).tokens
                    <= l.burst + Accrual(l.rate, rs[first].now, rs[n - 1].now)
    ensures (passed + One(rs[n].key == key && Admitted(l, rs, n))) as real + Ideal(l, rs, start, key, n + 1).tokens
              <= l.burst + Accrual(l.rate, rs[first].now, rs[n].now)
  {
    IdealStep(l, rs, start, key, n);
    AccrualAdds(l.rate, rs[first].now, Clock(rs, start, n), rs[n].now);
    Combine(passed, One(rs[n].key == key && Admitted(l, rs, n)));
  }

  lemma Combine(a: nat, b: nat)
    ensures (a + b) as real == a as real + b as real
  {
  }

  lemma {:induction false} WindowPotential(l: Limiter, rs: seq<Request>, start: real, key: Key, first: nat, n: nat)
    requires l.Sound() && l.buckets == map[] && Clocked(rs, start) && first <= n < |rs|
    ensures Passed(l, rs, key, first, n + 1) as real + Ideal(l, rs, start, key, n + 1).tokens
              <= l.burst + Accrual(l.rate, rs[first].now, rs[n].now)
    decreases n
  {
    if first < n {
      WindowPotential(l, rs, start, key, first, n - 1);
    }
    WindowStep(l, rs, start, key, first, n, Passed(l, rs, key, first, n));
  }

  lemma IdealNeverNegative(l: Limiter, rs: seq<Request>, start: real, key: Key, n: nat)
    requires l.Sound() && l.buckets == map[] && Clocked(rs, start) && n <= |rs|
    ensures Ideal(l, rs, start, key, n).tokens >= 0.0
  {
    RunMatches(l, rs, start, key, n);
  }

  /** In any window of any run, one key gets through at most the burst plus the
      rate times the window's length, despite eviction and re-creation. */
  lemma WindowBound(l: Limiter, rs: seq<Request>, start: real, key: Key, first: nat, n: nat)
    requires l.Sound() && l.buckets == map[] && Clocked(rs, start) && first <= n < |rs|
    ensures Passed(l, rs, key, first, n + 1) as real <= l.burst + Accrual(l.rate, rs[first].now, rs[n].now)
  {
    WindowPotential(l, rs, start, key, first, n);
    IdealNeverNegative(l, rs, start, key, n + 1);
  }

  // ---- Exactly which requests pass -------------------------------------------

  /** The tokens `key`'s ideal bucket holds when request `i` comes in. */
  function Level(l: Limiter, rs: seq<Request>, start: real, key: Key, i: nat): real
    requires i < |rs|
  {
    Refill(Ideal(l, rs, start, key, i), rs[i].now, l.rate, l.burst).tokens
  }

  /** What a window up to request `i` leaves of its allowance: the burst and the rate
      times its length, less the requests let through in it. */
  function Allowance(l: Limiter, rs: seq<Request>, key: Key, first: nat, i: nat): real
    requires first <= i < |rs|
  {
    l.burst + Accrual(l.rate, rs[first].now, rs[i].now) - Passed(l, rs, key, first, i) as real
  }

  lemma LevelWithinAllowance(l: Limiter, rs: seq<Request>, start: real, key: Key, first: nat, i: nat)
    requires l.Sound() && l.buckets == map[] && Clocked(rs, start) && first <= i < |rs|
    ensures Level(l, rs, start, key, i) <= Allowance(l, rs, key, first, i)
  {
    RunMatches(l, rs, start, key, i);
    assert Clock(rs, start, i) <= rs[i].now;
    RefillAccrues(Ideal(l, rs, start, key, i), rs[i].now, l.rate, l.burst);
    if first < i {
      WindowPotential(l, rs, start, key, first, i - 1);
      AccrualAdds(l.rate, rs[first].now, rs[i - 1].now, rs[i].now);
    } else {
      AccrualAdds(l.rate, rs[i].now, rs[i].now, rs[i].now);
    }
  }

  /** A bucket is either full or holds what it held and the accrual since. */
  lemma RefillExact(b: Bucket, now: real, rate: real, burst: real)
    requires b.last <= now && rate > 0.0
    ensures Refill(b, now, rate, burst).tokens == RealMin(burst, b.tokens + Accrual(rate, b.last, now))
  {
  }

  /** Some window leaves exactly what the bucket holds: the one since it was last full. */
  lemma {:induction false} LevelIsAllowance(l: Limiter, rs: seq<Request>, start: real, key: Key, i: nat)
    returns (first: nat)
    requires l.Sound() && l.buckets == map[] && Clocked(rs, start) && i < |rs|
    ensures first <= i && Level(l, rs, start, key, i) == Allowance(l, rs, key, first, i)
    decreases i
  {
    RunMatches(l, rs, start, key, i);
    var b, now := Ideal(l, rs, start, key, i), rs[i].now;
    assert b.last == Clock(rs, start, i) <= now;
    RefillExact(b, now, l.rate, l.burst);
    AccrualAdds(l.rate, now, now, now);
    if i == 0 {
      AccrualGrows(l.rate, start, now);
    }
    first := i;
    if Level(l, rs, start, key, i) != l.burst {
      first := LevelIsAllowance(l, rs, start, key, i - 1);
      AccrualAdds(l.rate, rs[first].now, rs[i - 1].now, now);
      Combine(Passed(l, rs, key, first, i - 1), One(rs[i - 1].key == key && Admitted(l, rs, i - 1)));
    }
  }

  lemma AccrualGrows(rate: real, since: real, now: real)
    requires rate > 0.0 && since <= now
    ensures Accrual(rate, since, now) >= 0.0
  {
  }

  /** With this request every window of its key is still within the burst and the rate
      times its length. */
  ghost predicate FitsEveryWindow(l: Limiter, rs: seq<Request>, i: nat)
    requires i < |rs|
  {
    forall first: nat :: first <= i ==> Allowance(l, rs, rs[i].key, first, i) >= 1.0
  }

  lemma FitsExactly(l: Limiter, rs: seq<Request>, start: real, i: nat)
    requires l.Sound() && l.buckets == map[] && Clocked(rs, start) && i < |rs|
    ensures FitsEveryWindow(l, rs, i) <==> Level(l, rs, start, rs[i].key, i) >= 1.0
  {
    var first := LevelIsAllowance(l, rs, start, rs[i].key, i);
    forall f: nat | f <= i
      ensures Level(l, rs, start, rs[i].key, i) <= Allowance(l, rs, rs[i].key, f, i)
    {
      LevelWithinAllowance(l, rs, start, rs[i].key, f, i);
    }
  }

  /** As many other keys as the map may hold have yet to refill. */
  ghost predicate Crowded(l: Limiter, rs: seq<Request>, start: real, i: nat, ks: set<Key>)
    requires i < |rs|
  {
    |ks| == l.cap && rs[i].key !in ks && forall k :: k in ks ==> Level(l, rs, start, k, i) < l.burst
  }

  /** A tracked bucket has refilled exactly when the ideal one has, and an untracked
      key's ideal bucket is full. */
  lemma SweptWhenFull(l: Limiter, rs: seq<Request>, start: real, i: nat, k: Key)
    requires l.Sound() && l.buckets == map[] && Clocked(rs, start) && i < |rs|
    ensures k in After(l, rs, i).Sweep(rs[i].now).buckets <==> Level(l, rs, start, k, i) < l.burst
  {
    RunMatches(l, rs, start, k, i);
    var s, before, now := After(l, rs, i), Clock(rs, start, i), rs[i].now;
    assert before <= now;
    RefillKeepsRange(Ideal(l, rs, start, k, i), now, l.rate, l.burst);
    if k in s.buckets {
      RefillTwice(s.buckets[k], before, now, l.rate, l.burst);
    }
  }

  /** An untracked key is refused exactly when the map is full of keys yet to refill. */
  lemma RefusedWhenCrowded(l: Limiter, rs: seq<Request>, start: real, i: nat)
    requires l.Sound() && l.buckets == map[] && Clocked(rs, start) && i < |rs|
    requires rs[i].key !in After(l, rs, i).buckets
    ensures !Admitted(l, rs, i) <==> exists ks :: Crowded(l, rs, start, i, ks)
  {
    MapStaysBounded(l, rs, i);
    var s, now := After(l, rs, i), rs[i].now;
    var swept := s.Sweep(now).buckets.Keys;
    SweepShrinks(s, now);
    forall k
      ensures k in swept <==> Level(l, rs, start, k, i) < l.burst
    {
      SweptWhenFull(l, rs, start, i, k);
    }
    if |swept| >= l.cap {
      assert Crowded(l, rs, start, i, swept);
    }
    if ks :| Crowded(l, rs, start, i, ks) {
      SubsetSize(ks, swept);
    }
  }

  /** Over any history, a request passes if and only if it keeps every window of its key
      within bounds and, should its key not be tracked, the map is not full of keys
      yet to refill. */
  lemma AdmittedExactly(l: Limiter, rs: seq<Request>, start: real, i: nat)
    requires l.Sound() && l.buckets == map[] && Clocked(rs, start) && i < |rs|
    ensures Admitted(l, rs, i) <==>
              && FitsEveryWindow(l, rs, i)
              && (rs[i].key !in After(l, rs, i).buckets ==> !exists ks :: Crowded(l, rs, start, i, ks))
  {
    FitsExactly(l, rs, start, i);
    EvictionMintsNothing(l, rs, start, i);
    if rs[i].key !in After(l, rs, i).buckets {
      RefusedWhenCrowded(l, rs, start, i);
    }
  }

  function Seen(rs: seq<Request>, n: nat): set<Key>
    requires n <= |rs|
  {
    set j | 0 <= j < n :: rs[j].key
  }

  lemma {:induction false} TrackedWereSeen(l: Limiter, rs: seq<Request>, n: nat)
    requires l.buckets == map[] && n <= |rs|
    ensures After(l, rs, n).buckets.Keys <= Seen(rs, n) && After(l, rs, n).cap == l.cap
  {
    if n > 0 {
      TrackedWereSeen(l, rs, n - 1);
      assert Seen(rs, n) == Seen(rs, n - 1) + {rs[n - 1].key};
    }
  }

  /** A stranger is let in while fewer keys than the map may hold have been seen. */
  lemma StrangerAdmitted(l: Limiter, rs: seq<Request>, i: nat)
    requires l.Sound() && l.buckets == map[] && i < |rs|
    requires rs[i].key !in Seen(rs, i) && |Seen(rs, i)| < l.cap
    ensures Admitted(l, rs, i)
  {
    TrackedWereSeen(l, rs, i);
    SubsetSize(After(l, rs, i).buckets.Keys, Seen(rs, i));
  }
}
