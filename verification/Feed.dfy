/** Finding the newest update of a sequence feed: anchor, gallop forward in bands
    of concurrent probes, then narrow the bracket with evenly spaced probes. The
    probes of a round complete in any order. */
module Feed {
  import opened Arith

  const MAX_PROBE_INDEX: nat := 1048576
  const PROBE_BAND: nat := 12
  const ANCHOR_ATTEMPTS: nat := 4

  datatype Probe<+C> = Present(chunk: C) | Absent | Unresolved

  datatype FeedError = NoUpdate

  /** Updates `0..count` exist and `chunk(i)` is update `i`. An interior probe may
      miss one that exists, but never answers with one that does not. */
  ghost predicate NeverInvents<C(!new)>(chunk: nat -> C, count: nat, get: nat -> Option<C>) {
    forall i: nat :: get(i).Some? ==> i < count && get(i).value == chunk(i)
  }

  /** An anchor probe may be inconclusive or wrongly absent, but never invents an update. */
  ghost predicate NeverInventsAnchor<C(!new)>(chunk: nat -> C, count: nat, anchor: (nat, nat) -> Probe<C>) {
    forall i: nat, k: nat :: anchor(i, k).Present? ==> i < count && anchor(i, k).chunk == chunk(i)
  }

  /** The first definitive answer for `i`, within the allowed attempts, is that it is present. */
  ghost predicate Found<C(!new)>(anchor: (nat, nat) -> Probe<C>, i: nat) {
    exists k: nat :: k < ANCHOR_ATTEMPTS && anchor(i, k).Present? && !Denied(anchor, i, k)
  }

  ghost predicate Denied<C(!new)>(anchor: (nat, nat) -> Probe<C>, i: nat, before: nat) {
    exists j: nat :: j < before && anchor(i, j).Absent?
  }

  /** An update that exists answers within the attempts and is never called absent. */
  ghost predicate SteadyAnchor<C(!new)>(count: nat, anchor: (nat, nat) -> Probe<C>) {
    && (forall i: nat, k: nat :: anchor(i, k).Absent? ==> count <= i)
    && (forall i: nat :: i < count ==> Answers(anchor, i))
  }

  ghost predicate Answers<C(!new)>(anchor: (nat, nat) -> Probe<C>, i: nat) {
    exists k: nat :: k < ANCHOR_ATTEMPTS && anchor(i, k).Present?
  }

  /** Against steady probes the anchor is found exactly when the update exists. */
  lemma AnchorTruth<C(!new)>(chunk: nat -> C, count: nat, anchor: (nat, nat) -> Probe<C>, i: nat)
    requires NeverInventsAnchor(chunk, count, anchor) && SteadyAnchor(count, anchor)
    ensures Found(anchor, i) <==> i < count
  {
    if i < count {
      assert Answers(anchor, i);
      var k: nat :| k < ANCHOR_ATTEMPTS && anchor(i, k).Present?;
      assert !Denied(anchor, i, k);
    }
  }

  method ConfirmAnchor<C(!new)>(anchor: (nat, nat) -> Probe<C>, i: nat) returns (r: Option<C>)
    ensures r.Some? <==> Found(anchor, i)
    ensures r.Some? ==> exists k: nat :: k < 4 && anchor(i, k) == Present(r.value)
    ensures (forall k: nat :: k < 3 ==> anchor(i, k).Unresolved?) && anchor(i, 3).Present? ==> r.Some?
  {
    for attempt := 0 to ANCHOR_ATTEMPTS
      invariant forall j :: 0 <= j < attempt ==> anchor(i, j).Unresolved?
    {
      match anchor(i, attempt)
      case Present(c) =>
        assert !Denied(anchor, i, attempt);
        return Some(c);
      case Absent =>
        assert forall k: nat :: attempt < k ==> Denied(anchor, i, k);
        return None;
      case Unresolved =>
    }
    r := None;
  }

  // ---- Candidate spacing ---------------------------------------------------

  lemma DivSum(x: nat, w: nat, d: nat)
    requires d > 0
    ensures x / d + w / d <= (x + w) / d <= x / d + w / d + 1
  {
    var y, q := x / d, w / d;
    DivIsLargest(x, d, y);
    DivIsLargest(x, d, y + 1);
    DivIsLargest(w, d, q);
    DivIsLargest(w, d, q + 1);
    assert (y + q) * d == y * d + q * d;
    assert (y + q + 2) * d == (y + 1) * d + (q + 1) * d;
    DivIsLargest(x + w, d, y + q);
    DivIsLargest(x + w, d, y + q + 2);
  }

  /** Floor division spreads evenly: consecutive multiples are a whole quotient apart, or one more. */
  lemma FloorStep(span: nat, d: nat, j: nat)
    requires d > 0
    ensures span / d <= (span * (j + 1)) / d - (span * j) / d <= span / d + 1
  {
    assert span * (j + 1) == span * j + span;
    DivSum(span * j, span, d);
  }

  /** With a probe for every interior index, the candidates are all of them. */
  lemma FloorDense(span: nat, j: nat)
    requires 1 <= j <= span
    ensures (span * j) / (span + 1) == j - 1
  {
    assert span * j == (j - 1) * (span + 1) + (span + 1 - j);
    DivUnique(span * j, span + 1, j - 1, span + 1 - j);
  }

  lemma FloorEnd(span: nat, d: nat)
    requires d > 0
    ensures (span * d) / d == span
  {
    DivUnique(span * d, d, span, 0);
  }

  function Spread(low: nat, span: nat, probes: nat, j: nat): (idx: nat)
    ensures idx > low
  {
    low + (span * j) / (probes + 1) + 1
  }

  lemma SpreadGrows(low: nat, span: nat, probes: nat, j: nat)
    requires 1 <= probes <= span && 1 <= j < probes
    ensures Spread(low, span, probes, j) < Spread(low, span, probes, j + 1)
                                         <= Spread(low, span, probes, j) + span / (probes + 1) + 1
  {
    FloorStep(span, probes + 1, j);
    if probes == span {
      FloorDense(span, j);
      FloorDense(span, j + 1);
    } else {
      DivIsLargest(span, probes + 1, 1);
    }
  }

  lemma SpreadEnds(low: nat, span: nat, probes: nat)
    requires 1 <= probes <= span
    ensures low < Spread(low, span, probes, 1) <= low + span / (probes + 1) + 1
    ensures Spread(low, span, probes, probes) < low + span + 1
                                              <= Spread(low, span, probes, probes) + span / (probes + 1) + 1
  {
    assert span * 1 == span;
    FloorStep(span, probes + 1, probes);
    FloorEnd(span, probes + 1);
    if probes == span {
      FloorDense(span, probes);
    } else {
      DivIsLargest(span, probes + 1, 1);
    }
  }

  /** The candidates framed by the bracket they split. */
  function Edge(low: nat, high: nat, cs: seq<nat>, j: nat): nat
    requires j <= |cs| + 1
  {
    if j == 0 then low else if j <= |cs| then cs[j - 1] else high
  }

  predicate GapWithin(low: nat, high: nat, cs: seq<nat>, j: nat, widest: nat)
    requires j <= |cs|
  {
    Edge(low, high, cs, j) < Edge(low, high, cs, j + 1) <= Edge(low, high, cs, j) + widest
  }

  /** The candidates ascend strictly inside the bracket and no gap is wider than `widest`. */
  ghost predicate EvenlySplit(low: nat, high: nat, cs: seq<nat>, widest: nat) {
    forall j: nat :: j <= |cs| ==> GapWithin(low, high, cs, j, widest)
  }

  lemma SpreadSplitsEvenly(low: nat, high: nat, span: nat, probes: nat, cs: seq<nat>, widest: nat)
    requires 1 <= probes <= span && |cs| == probes
    requires high == low + span + 1 && widest == span / (probes + 1) + 1
    requires forall i :: 0 <= i < probes ==> cs[i] == Spread(low, span, probes, i + 1)
    ensures EvenlySplit(low, high, cs, widest)
  {
    forall j: nat | j <= |cs|
      ensures GapWithin(low, high, cs, j, widest)
    {
      if j == 0 || j == |cs| {
        SpreadEnds(low, span, probes);
      } else {
        SpreadGrows(low, span, probes, j);
      }
    }
  }

  /** Probing every interior index when there are few enough is the same share. */
  lemma SameShare(span: nat, probes: nat, k: nat)
    requires probes == Min(k, span)
    ensures span / (probes + 1) == span / (k + 1)
  {
    if probes < k {
      DivUnique(span, k + 1, 0, span);
      DivUnique(span, probes + 1, 0, span);
    }
  }

  lemma SpreadBelow(low: nat, span: nat, probes: nat, j: nat)
    requires 1 <= probes <= span && 1 <= j <= probes
    ensures Spread(low, span, probes, j) < low + span + 1
    decreases probes - j
  {
    if j == probes {
      SpreadEnds(low, span, probes);
    } else {
      SpreadGrows(low, span, probes, j);
      SpreadBelow(low, span, probes, j + 1);
    }
  }

  /** The first `n` candidates. */
  ghost function Spreads(low: nat, span: nat, probes: nat, n: nat): seq<nat> {
    if n == 0 then [] else Spreads(low, span, probes, n - 1) + [Spread(low, span, probes, n)]
  }

  lemma {:induction false} SpreadsAt(low: nat, span: nat, probes: nat, n: nat)
    ensures |Spreads(low, span, probes, n)| == n
    ensures forall i :: 0 <= i < n ==> Spreads(low, span, probes, n)[i] == Spread(low, span, probes, i + 1)
  {
    if n > 0 {
      SpreadsAt(low, span, probes, n - 1);
    }
  }

  /** Each new candidate is inside the bracket and differs from the one before it. */
  lemma SpreadFresh(low: nat, span: nat, probes: nat, j: nat, out: seq<nat>)
    requires 1 <= j <= probes <= span && out == Spreads(low, span, probes, j - 1)
    ensures Spread(low, span, probes, j) < low + span + 1
    ensures out == [] || out[|out| - 1] != Spread(low, span, probes, j)
  {
    SpreadBelow(low, span, probes, j);
    SpreadsAt(low, span, probes, j - 1);
    if j > 1 {
      SpreadGrows(low, span, probes, j - 1);
    }
  }

  lemma SpreadsSplitEvenly(low: nat, high: nat, span: nat, probes: nat, k: nat)
    requires k > 0 && high == low + span + 1 && span >= 1 && probes == Min(k, span)
    ensures |Spreads(low, span, probes, probes)| == probes
    ensures EvenlySplit(low, high, Spreads(low, span, probes, probes), span / (k + 1) + 1)
  {
    SpreadsAt(low, span, probes, probes);
    SameShare(span, probes, k);
    SpreadSplitsEvenly(low, high, span, probes, Spreads(low, span, probes, probes), span / (probes + 1) + 1);
  }

  /** As many distinct interior candidates as there are, up to `k`, in ascending
      order and evenly spaced. */
  method BracketCandidates(low: nat, high: nat, k: nat) returns (out: seq<nat>)
    requires k > 0
    ensures |out| == if high <= low + 1 then 0 else Min(k, high - low - 1)
    ensures high > low ==> EvenlySplit(low, high, out, (high - low - 1) / (k + 1) + 1)
  {
    if high <= low + 1 {
      return [];
    }
    var span := high - low - 1;
    var probes := Min(k, span);
    out := [];
    for j := 1 to probes + 1
      invariant out == Spreads(low, span, probes, j - 1)
    {
      var idx := Spread(low, span, probes, j);
      SpreadFresh(low, span, probes, j, out);
      if idx > low && idx < high && (out == [] || out[|out| - 1] != idx) {
        out := out + [idx];
      }
    }
    SpreadsSplitEvenly(low, high, span, probes, k);
  }

  // ---- One round of concurrent probes --------------------------------------

  /** Where a bracket stands once every index of `band` has answered, in any order. */
  ghost predicate Probed<C(!new)>(get: nat -> Option<C>, band: set<nat>, lo0: nat, hi0: nat, lo: nat, hi: nat) {
    && lo0 <= lo && hi <= hi0
    && (lo == lo0 || (lo in band && get(lo).Some?))
    && (hi == hi0 || (hi in band && get(hi).None?))
    && forall i :: i in band ==> (get(i).Some? ==> i <= lo) && (get(i).None? ==> hi <= i)
  }

  /** Collect a round's answers as they arrive: the highest hit with its chunk,
      and the lowest miss. */
  method ProbeAll<C(!new)>(get: nat -> Option<C>, band: set<nat>, lo0: nat, hi0: nat)
    returns (lo: nat, hi: nat, found: Option<C>)
    ensures Probed(get, band, lo0, hi0, lo, hi)
    ensures if lo == lo0 then found.None? else found == get(lo)
  {
    lo, hi, found := lo0, hi0, None;
    var pending := band;
    while pending != {}
      invariant pending <= band
      invariant Probed(get, band - pending, lo0, hi0, lo, hi)
      invariant if lo == lo0 then found.None? else found == get(lo)
      decreases pending
    {
      var idx :| idx in pending;
      pending := pending - {idx};
      match get(idx)
      case Some(c) =>
        if idx > lo {
          lo, found := idx, Some(c);
        }
      case None =>
        if idx < hi {
          hi := idx;
        }
    }
    assert band - pending == band;
  }

  ghost predicate MissBelowHit<C(!new)>(get: nat -> Option<C>, band: set<nat>) {
    exists i, j :: i in band && j in band && i < j && get(i).None? && get(j).Some?
  }

  /** A round leaves its bounds crossed exactly when it missed an index below one
      that answered. */
  lemma RoundCrosses<C(!new)>(get: nat -> Option<C>, band: set<nat>, lo0: nat, hi0: nat, lo: nat, hi: nat)
    requires Probed(get, band, lo0, hi0, lo, hi) && lo0 < hi0
    requires forall i :: i in band ==> lo0 < i < hi0
    ensures hi < lo <==> MissBelowHit(get, band)
    ensures lo != hi
  {
    if hi < lo {
      assert hi in band && lo in band;
    }
  }

  // ---- The search ----------------------------------------------------------

  /** The index the search settles on: the newest update, except that indices
      past the probe limit are only reached by a hint that is itself past it. */
  function Head(count: nat, after: nat): nat
    requires count > 0
  {
    if count - 1 <= MAX_PROBE_INDEX then count - 1
    else if MAX_PROBE_INDEX < after < count then after
    else MAX_PROBE_INDEX
  }

  /** The gallop's band above `lo`: doubling offsets, none past the probe limit. */
  method Band(lo: nat, step: nat) returns (band: set<nat>, top: nat)
    requires step > 0
    ensures forall i :: i in band ==> lo < i <= top && i <= MAX_PROBE_INDEX
    ensures band == {} <==> lo + step > MAX_PROBE_INDEX
    ensures if band == {} then top == lo else top in band
    ensures lo + step <= MAX_PROBE_INDEX ==> lo + step in band
    ensures lo + 2 * step <= MAX_PROBE_INDEX ==> lo + 2 * step in band
  {
    band, top := {}, lo;
    var k := 0;
    while k < PROBE_BAND
      invariant forall i :: i in band ==> lo < i <= top && i <= MAX_PROBE_INDEX
      invariant if band == {} then top == lo else top in band
      invariant if k == 0 then band == {} else lo + step in band
      invariant k > 1 ==> lo + 2 * step in band
      invariant k <= PROBE_BAND
    {
      assert Pow2(0) == 1 && Pow2(1) == 2;
      assert step * Pow2(k) >= 1;
      var off := Min(step * Pow2(k), U64_MAX);
      var idx := Min(lo + off, U64_MAX);
      if idx > MAX_PROBE_INDEX {
        break;
      }
      band := band + {idx};
      top := Max(top, idx);
      k := k + 1;
    }
  }

  /** The chunk in hand is the one at `lo`, from the anchor or from a probe. */
  predicate InHand<C(==)>(get: nat -> Option<C>, start: nat, first: C, lo: nat, last: C) {
    start <= lo && if lo == start then last == first else get(lo) == Some(last)
  }

  /** The gallop: from a present index to a bracket, or to the highest index the
      limit allows when no probe comes back missing. The bracket it leaves may be
      crossed, and is when the second index answers and the first does not. */
  method Gallop<C(==, !new)>(get: nat -> Option<C>, start: nat, first: C)
    returns (lo: nat, hi: nat, last: C)
    ensures InHand(get, start, first, lo, last)
    ensures hi == U64_MAX || (start < hi <= MAX_PROBE_INDEX && hi != lo && get(hi).None?)
    ensures hi == U64_MAX ==> lo == Max(start, 1048576)
    ensures start + 2 <= MAX_PROBE_INDEX && get(start + 1).None? && get(start + 2).Some? ==> hi < lo
  {
    lo, hi, last := start, U64_MAX, first;
    var step := 1;
    while hi == U64_MAX
      invariant step == 1
      invariant InHand(get, start, first, lo, last)
      invariant lo == start || (lo <= MAX_PROBE_INDEX && get(start + 1).Some?)
      invariant hi == U64_MAX
      decreases MAX_PROBE_INDEX - lo
    {
      var band, top := Band(lo, step);
      if band == {} {
        break;
      }
      var newLo, newHi, found := ProbeAll(get, band, lo, hi);
      RoundCrosses(get, band, lo, hi, newLo, newHi);
      var anyPresent := found.Some?;
      if found.Some? {
        last := found.value;
      }
      lo, hi := newLo, newHi;
      if hi != U64_MAX {
        break;
      }
      assert get(top).Some? && lo == top;
      if !anyPresent || top >= MAX_PROBE_INDEX {
        break;
      }
      step := (top - lo) + 1;
    }
  }

  /** One narrowing round: unless its bounds cross, it takes the gap to at most a
      thirteenth, rounded down, plus one. */
  method NarrowRound<C(!new)>(get: nat -> Option<C>, low: nat, high: nat)
    returns (newLow: nat, newHigh: nat, found: Option<C>)
    requires high - low > 1
    ensures low <= newLow < high && low < newHigh <= high && newLow != newHigh
    ensures if newLow == low then found.None? else found.Some? && found == get(newLow)
    ensures newHigh == high || get(newHigh).None?
    ensures newLow < newHigh ==> newHigh - newLow <= (high - low - 1) / 13 + 1 < high - low
  {
    var cs := BracketCandidates(low, high, PROBE_BAND);
    var band := set i | i in cs;
    newLow, newHigh, found := ProbeAll(get, band, low, high);
    ghost var widest := (high - low - 1) / (PROBE_BAND + 1) + 1;
    CandidatesInside(low, high, cs, widest);
    RoundCrosses(get, band, low, high, newLow, newHigh);
    if newLow < newHigh {
      RoundGap(get, low, high, cs, band, newLow, newHigh, widest);
    }
    DivIsLargest(high - low - 1, PROBE_BAND + 1, high - low - 1);
  }

  lemma CandidatesInside(low: nat, high: nat, cs: seq<nat>, widest: nat)
    requires EvenlySplit(low, high, cs, widest)
    ensures forall i :: i in cs ==> low < i < high
  {
    forall i | 0 <= i < |cs|
      ensures low < cs[i] < high
    {
      EdgesSorted(low, high, cs, 0, i, widest);
      EdgesSorted(low, high, cs, i + 2, |cs| + 1, widest);
      assert GapWithin(low, high, cs, i, widest) && GapWithin(low, high, cs, i + 1, widest);
    }
  }

  /** Uncrossed bounds are neighbouring candidates. */
  lemma RoundGap<C(!new)>(get: nat -> Option<C>, low: nat, high: nat, cs: seq<nat>, band: set<nat>,
                          newLow: nat, newHigh: nat, widest: nat)
    requires EvenlySplit(low, high, cs, widest) && band == set i | i in cs
    requires Probed(get, band, low, high, newLow, newHigh) && low <= newLow < newHigh <= high
    ensures newHigh - newLow <= widest
  {
    var j := LastEdgeBelow(low, high, cs, newHigh);
    EdgesApart(low, high, cs, j, widest);
    assert GapWithin(low, high, cs, j, widest);
    assert j > 0 ==> Edge(low, high, cs, j) in band;
    assert newHigh == Edge(low, high, cs, j + 1);
    assert newLow == Edge(low, high, cs, j);
  }

  /** The edge just below the boundary between present and missing. */
  ghost function LastEdgeBelow(low: nat, high: nat, cs: seq<nat>, count: nat): (j: nat)
    requires low < count <= high
    ensures j <= |cs| && Edge(low, high, cs, j) < count <= Edge(low, high, cs, j + 1)
  {
    LastEdgeFrom(low, high, cs, count, |cs|)
  }

  ghost function LastEdgeFrom(low: nat, high: nat, cs: seq<nat>, count: nat, from: nat): (j: nat)
    requires low < count && from <= |cs| && count <= Edge(low, high, cs, from + 1)
    ensures j <= |cs| && Edge(low, high, cs, j) < count <= Edge(low, high, cs, j + 1)
    decreases from
  {
    if Edge(low, high, cs, from) < count then from else LastEdgeFrom(low, high, cs, count, from - 1)
  }

  /** In ascending order no candidate lies strictly between neighbours. */
  lemma EdgesApart(low: nat, high: nat, cs: seq<nat>, j: nat, widest: nat)
    requires j <= |cs| && EvenlySplit(low, high, cs, widest)
    ensures forall i :: 0 <= i < |cs| ==> cs[i] <= Edge(low, high, cs, j) || Edge(low, high, cs, j + 1) <= cs[i]
    ensures low <= Edge(low, high, cs, j) && Edge(low, high, cs, j + 1) <= high
  {
    forall i, k | 0 <= i <= k <= |cs| + 1
      ensures Edge(low, high, cs, i) <= Edge(low, high, cs, k)
    {
      EdgesSorted(low, high, cs, i, k, widest);
    }
    assert low == Edge(low, high, cs, 0) && high == Edge(low, high, cs, |cs| + 1);
    forall i | 0 <= i < |cs|
      ensures cs[i] <= Edge(low, high, cs, j) || Edge(low, high, cs, j + 1) <= cs[i]
    {
      assert cs[i] == Edge(low, high, cs, i + 1);
    }
  }

  lemma {:induction false} EdgesSorted(low: nat, high: nat, cs: seq<nat>, i: nat, k: nat, widest: nat)
    requires i <= k <= |cs| + 1 && EvenlySplit(low, high, cs, widest)
    ensures Edge(low, high, cs, i) <= Edge(low, high, cs, k)
    decreases k - i
  {
    if i < k {
      EdgesSorted(low, high, cs, i, k - 1, widest);
      assert GapWithin(low, high, cs, k - 1, widest);
    }
  }

  /** `high - low` on 64 bits, where it wraps rather than stops. */
  function WrappedGap(low: nat, high: nat): int {
    if low <= high then high - low else U64_MAX + 1 - (low - high)
  }

  /** Where the search starts: at the hint if that is confirmed, or cold. */
  ghost function StartAt<C(!new)>(anchor: (nat, nat) -> Probe<C>, after: nat): nat {
    if Found(anchor, after) then after else 0
  }

  /** For every feed, every hint, every order of answers and every set of updates
      the probes miss: without an anchor there is no answer; otherwise the search
      ends at an update that exists, with that update's own chunk. Unless the
      bounds cross, the next index was missed or lies past the limit. They cross
      only over a missed update, and always over one just above the start when
      the one after it answers. With a steady anchor an answer is missing exactly
      from an empty feed, and with nothing missed above the start the search ends
      at the head. */
  method ResolveLatest<C(==, !new)>(ghost chunk: nat -> C, ghost count: nat, anchor: (nat, nat) -> Probe<C>,
                                    get: nat -> Option<C>, after: nat)
    returns (r: Result<(C, nat), FeedError>, crossed: bool)
    requires NeverInventsAnchor(chunk, count, anchor) && NeverInvents(chunk, count, get) && after <= U64_MAX
    ensures r.Err? <==> !Found(anchor, after) && !Found(anchor, 0)
    ensures r.Ok? ==> StartAt(anchor, after) <= r.value.1 < count && r.value.0 == chunk(r.value.1)
    ensures r.Ok? && !crossed ==> r.value.1 >= MAX_PROBE_INDEX || get(r.value.1 + 1).None?
    ensures crossed ==> r.Ok? && exists i :: StartAt(anchor, after) < i < r.value.1 && get(i).None?
    ensures var start := StartAt(anchor, after);
            r.Ok? && start + 2 <= MAX_PROBE_INDEX && get(start + 1).None? && get(start + 2).Some? ==> crossed
    ensures SteadyAnchor(count, anchor) ==> (r.Err? <==> count == 0)
    ensures SteadyAnchor(count, anchor) && count > 0
            && (forall i :: StartAt(anchor, after) < i < count ==> get(i).Some?) ==>
              !crossed && r.value.1 == Head(count, after)
  {
    var hit := ConfirmAnchor(anchor, after);
    var start, first := after, hit;
    if hit.None? {
      if after != 0 {
        first := ConfirmAnchor(anchor, 0);
      }
      start := 0;
    }
    if SteadyAnchor(count, anchor) {
      AnchorTruth(chunk, count, anchor, after);
      AnchorTruth(chunk, count, anchor, 0);
    }
    if first.None? {
      return Err(NoUpdate), false;
    }
    var lo, hi, last := Gallop(get, start, first.value);
    if hi != U64_MAX {
      lo, hi, last := Narrow(get, start, first.value, lo, hi, last);
    }
    crossed := hi < lo;
    r := Ok((last, lo));
    assert get(hi).None? || hi == U64_MAX;
  }

  /** Narrowing until the bounds are neighbours, or cross. */
  method Narrow<C(==, !new)>(get: nat -> Option<C>, start: nat, first: C, lo0: nat, hi0: nat, last0: C)
    returns (lo: nat, high: nat, last: C)
    requires InHand(get, start, first, lo0, last0)
    requires start < hi0 <= MAX_PROBE_INDEX && hi0 != lo0 && get(hi0).None?
    ensures InHand(get, start, first, lo, last)
    ensures start < high <= MAX_PROBE_INDEX && get(high).None?
    ensures high <= lo + 1 && high != lo
    ensures hi0 < lo0 ==> high < lo
  {
    lo, last := lo0, last0;
    var low := lo0;
    high := hi0;
    while WrappedGap(low, high) > 1
      invariant InHand(get, start, first, lo, last) && lo == low
      invariant start < high <= MAX_PROBE_INDEX && get(high).None? && high != low
      invariant hi0 < lo0 ==> high < low
      decreases high - low
    {
      if high <= low + 1 {
        // Nothing lies between, so there is nothing to probe.
        break;
      }
      var newLow, newHigh, found := NarrowRound(get, low, high);
      if newLow == low && newHigh == high {
        break;
      }
      if found.Some? {
        last, lo := found.value, newLow;
      }
      low, high := newLow, newHigh;
    }
  }

  function Itself(i: nat): nat { i }

  function ThreeUpdates(i: nat, k: nat): Probe<nat> { if i < 3 then Present(i) else Absent }

  function MissingOne(i: nat): Option<nat> { if i == 2 then Some(i) else None }

  lemma ThreeAreFound()
    ensures NeverInventsAnchor(Itself, 3, ThreeUpdates) && NeverInvents(Itself, 3, MissingOne)
    ensures Found(ThreeUpdates, 0)
  {
    assert ThreeUpdates(0, 0).Present? && !Denied(ThreeUpdates, 0, 0);
  }

  /** Three updates, the second missed once: the third answers in the same band and
      the bounds cross. */
  method CrossingRun() returns (r: Result<(nat, nat), FeedError>, crossed: bool)
    ensures crossed && r == Ok((2, 2))
  {
    ThreeAreFound();
    r, crossed := ResolveLatest(Itself, 3, ThreeUpdates, MissingOne, 0);
  }
}
