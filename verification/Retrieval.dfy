/** The retrieval loop for one chunk: candidate peers move between a queue, a bounded
    window of fetches in flight, and a timed skiplist of recent failures. */
module Retrieval {
  import opened Arith

  /** A peer is identified by its overlay address. */
  type Peer = nat

  const SKIPLIST_MS: nat := 60_000

  function Elems(s: seq<Peer>): set<Peer> { set p | p in s }

  /** Skiplist entries not yet expired. */
  function Live(skiplist: map<Peer, nat>, now: nat): map<Peer, nat> {
    map p | p in skiplist && skiplist[p] > now :: skiplist[p]
  }

  function Eligible(candidates: seq<Peer>, skipped: set<Peer>): (r: seq<Peer>)
    ensures forall p :: p in r <==> p in candidates && p !in skipped
    ensures Distinct(candidates) ==> Distinct(r)
    ensures (forall p :: p in candidates ==> p !in skipped) ==> r == candidates
  {
    if candidates == [] then [] else
      var rest := Eligible(candidates[1..], skipped);
      assert forall p :: p in candidates <==> p == candidates[0] || p in candidates[1..];
      assert Distinct(candidates) ==> candidates[0] !in candidates[1..];
      if candidates[0] in skipped then rest else [candidates[0]] + rest
  }

  /** `clock` is the last time the loop looked at. */
  datatype State = State(
    deque: seq<Peer>, inflight: set<Peer>, skiplist: map<Peer, nat>, clock: nat, gaveUp: bool)
  {
    /** Starting fetches from the front of the queue, up to `n` of them. */
    function Seed(n: nat): State {
      var k := Min(n, |deque|);
      this.(inflight := inflight + Elems(deque[..k]), deque := deque[k..])
    }

    /** A fetch put off by the dial rate limit goes to the back of the queue. */
    function Deferred(p: Peer): State {
      this.(inflight := inflight - {p}, deque := deque + [p]).Seed(1)
    }

    function Failed(p: Peer, at: nat): State {
      this.(inflight := inflight - {p}, skiplist := skiplist[p := at + SKIPLIST_MS], clock := at).Seed(1)
    }

    predicate Idle() { inflight == {} && deque == [] }

    /** Nothing left to try: look at `checked` for parked peers, sleep until `woke`,
        and queue every candidate no longer parked. */
    function Refill(candidates: seq<Peer>, concurrency: nat, checked: nat, woke: nat): State {
      var parked := Live(skiplist, checked);
      if parked == map[] then this.(skiplist := parked, clock := checked, gaveUp := true)
      else
        var still := Live(parked, woke);
        var back := Eligible(candidates, still.Keys);
        this.(skiplist := still, clock := woke, deque := back, gaveUp := back == []).Seed(concurrency)
    }

    /** Every candidate is in exactly one place, and once. */
    ghost predicate Partitioned(candidates: seq<Peer>) {
      && Distinct(deque)
      && (forall p :: p in deque ==> p !in inflight && p !in skiplist)
      && (forall p :: p in inflight ==> p !in skiplist)
      && (forall p :: p in candidates <==> p in deque || p in inflight || p in skiplist)
    }

    /** The window is never overfull, and full while peers are waiting. */
    ghost predicate WindowFull(concurrency: nat) {
      && |inflight| <= concurrency
      && (deque != [] ==> |inflight| == concurrency)
    }

    /** No peer is parked for longer than the skip time from now; a loop that has run
        dry parked its last peer just now. */
    ghost predicate Timed(candidates: seq<Peer>) {
      && (forall p :: p in skiplist ==> skiplist[p] <= clock + SKIPLIST_MS)
      && (Idle() && candidates != [] && !gaveUp ==> exists p :: p in skiplist && skiplist[p] == clock + SKIPLIST_MS)
    }

    ghost predicate Inv(candidates: seq<Peer>, concurrency: nat) {
      WindowFull(concurrency) && Timed(candidates) && (!gaveUp ==> Partitioned(candidates))
    }
  }

  function Begin(candidates: seq<Peer>, concurrency: nat, now: nat): State {
    State(candidates, {}, map[], now, false).Seed(concurrency)
  }

  datatype Event = Defer(p: Peer) | Fail(p: Peer, at: nat) | Refill(checked: nat, woke: nat)

  ghost predicate Enabled(s: State, e: Event) {
    && !s.gaveUp
    && match e
       case Defer(p) => p in s.inflight
       case Fail(p, at) => p in s.inflight && s.clock <= at
       case Refill(checked, woke) =>
         && s.Idle()
         && s.clock <= checked <= woke
         // the sleep lasts at least to the earliest expiry
         && (Live(s.skiplist, checked) != map[] ==>
               exists p :: p in Live(s.skiplist, checked) && s.skiplist[p] <= woke)
  }

  ghost function Step(s: State, e: Event, candidates: seq<Peer>, concurrency: nat): State {
    match e
    case Defer(p) => s.Deferred(p)
    case Fail(p, at) => s.Failed(p, at)
    case Refill(checked, woke) => s.Refill(candidates, concurrency, checked, woke)
  }

  // ---- What each move keeps --------------------------------------------------

  lemma {:induction false} ElemsCount(s: seq<Peer>)
    requires Distinct(s)
    ensures |Elems(s)| == |s|
  {
    if s != [] {
      var n := |s| - 1;
      ElemsCount(s[..n]);
      assert Elems(s) == Elems(s[..n]) + {s[n]};
      assert s[n] !in s[..n];
    } else {
      assert Elems(s) == {};
    }
  }

  lemma SeedKeepsParts(s: State, n: nat, candidates: seq<Peer>)
    requires s.Partitioned(candidates)
    ensures s.Seed(n).Partitioned(candidates)
  {
    var k := Min(n, |s.deque|);
    assert s.deque == s.deque[..k] + s.deque[k..];
    assert forall p :: p in s.deque <==> p in s.deque[..k] || p in s.deque[k..];
    assert forall p :: p in s.deque[..k] ==> p !in s.deque[k..];
  }

  /** Seeding as many as there are free places fills the window or drains the queue. */
  lemma SeedFillsWindow(s: State, n: nat, concurrency: nat)
    requires Distinct(s.deque) && (forall p :: p in s.deque ==> p !in s.inflight)
    requires |s.inflight| + n <= concurrency && (|s.deque| > n ==> |s.inflight| + n == concurrency)
    ensures s.Seed(n).WindowFull(concurrency)
  {
    var k := Min(n, |s.deque|);
    ElemsCount(s.deque[..k]);
    assert s.inflight !! Elems(s.deque[..k]);
    assert |s.inflight + Elems(s.deque[..k])| == |s.inflight| + k;
  }

  lemma SeedStartsFront(s: State, n: nat)
    requires s.deque != [] && n >= 1
    ensures s.deque[0] in s.Seed(n).inflight
  {
    assert s.deque[0] in s.deque[..Min(n, |s.deque|)];
  }

  lemma BeginsSound(candidates: seq<Peer>, concurrency: nat, now: nat)
    requires Distinct(candidates) && concurrency >= 1
    ensures Begin(candidates, concurrency, now).Inv(candidates, concurrency)
  {
    var s := State(candidates, {}, map[], now, false);
    SeedKeepsParts(s, concurrency, candidates);
    SeedFillsWindow(s, concurrency, concurrency);
    if candidates != [] {
      SeedStartsFront(s, concurrency);
    }
  }

  lemma DeferKeepsInv(s: State, p: Peer, candidates: seq<Peer>, concurrency: nat)
    requires s.Inv(candidates, concurrency) && Enabled(s, Defer(p)) && concurrency >= 1
    ensures s.Deferred(p).Inv(candidates, concurrency)
  {
    var t := s.(inflight := s.inflight - {p}, deque := s.deque + [p]);
    assert forall q :: q in t.deque <==> q in s.deque || q == p;
    SeedKeepsParts(t, 1, candidates);
    SeedFillsWindow(t, 1, concurrency);
    SeedStartsFront(t, 1);
  }

  lemma ParkKeepsParts(s: State, p: Peer, until: nat, candidates: seq<Peer>)
    requires s.Partitioned(candidates) && p in s.inflight
    ensures s.(inflight := s.inflight - {p}, skiplist := s.skiplist[p := until]).Partitioned(candidates)
  {
  }

  lemma ParkKeepsTime(s: State, p: Peer, at: nat, candidates: seq<Peer>)
    requires s.Timed(candidates) && s.clock <= at
    ensures s.Failed(p, at).Timed(candidates)
  {
    assert s.Failed(p, at).skiplist[p] == at + SKIPLIST_MS;
  }

  lemma FailKeepsInv(s: State, p: Peer, at: nat, candidates: seq<Peer>, concurrency: nat)
    requires s.Inv(candidates, concurrency) && Enabled(s, Fail(p, at))
    ensures s.Failed(p, at).Inv(candidates, concurrency)
  {
    ParkKeepsTime(s, p, at, candidates);
    var parked := s.(inflight := s.inflight - {p}, skiplist := s.skiplist[p := at + SKIPLIST_MS], clock := at);
    assert parked.Partitioned(candidates) by {
      ParkKeepsParts(s, p, at + SKIPLIST_MS, candidates);
    }
    SeedKeepsParts(parked, 1, candidates);
    SeedFillsWindow(parked, 1, concurrency);
  }

  /** The loop gives up exactly when it finds every park already over. A refill that
      goes ahead always finds a peer to try. */
  lemma RefillGivesUp(s: State, candidates: seq<Peer>, concurrency: nat, checked: nat, woke: nat)
    requires s.Inv(candidates, concurrency) && Enabled(s, Refill(checked, woke)) && concurrency >= 1
    ensures s.Refill(candidates, concurrency, checked, woke).gaveUp
            <==> candidates == [] || checked >= s.clock + SKIPLIST_MS
    ensures !s.Refill(candidates, concurrency, checked, woke).gaveUp
            ==> s.Refill(candidates, concurrency, checked, woke).inflight != {}
  {
    var parked := Live(s.skiplist, checked);
    if parked == map[] {
      if candidates != [] {
        var p :| p in s.skiplist && s.skiplist[p] == s.clock + SKIPLIST_MS;
        assert p !in parked;
      }
    } else {
      var q :| q in parked;
      assert q in candidates && s.skiplist[q] > checked;
      var p :| p in parked && s.skiplist[p] <= woke;
      var back := Eligible(candidates, Live(parked, woke).Keys);
      assert p in back;
      SeedStartsFront(s.(deque := back), concurrency);
    }
  }

  lemma RefillKeepsInv(s: State, candidates: seq<Peer>, concurrency: nat, checked: nat, woke: nat)
    requires Distinct(candidates)
    requires s.Inv(candidates, concurrency) && Enabled(s, Refill(checked, woke)) && concurrency >= 1
    ensures s.Refill(candidates, concurrency, checked, woke).Inv(candidates, concurrency)
  {
    RefillGivesUp(s, candidates, concurrency, checked, woke);
    var parked := Live(s.skiplist, checked);
    if parked != map[] {
      var still := Live(parked, woke);
      var t := s.(skiplist := still, clock := woke, deque := Eligible(candidates, still.Keys));
      assert t.Partitioned(candidates);
      SeedKeepsParts(t, concurrency, candidates);
      SeedFillsWindow(t, concurrency, concurrency);
    }
  }

  lemma StepKeepsInv(s: State, e: Event, candidates: seq<Peer>, concurrency: nat)
    requires Distinct(candidates) && concurrency >= 1
    requires s.Inv(candidates, concurrency) && Enabled(s, e)
    ensures Step(s, e, candidates, concurrency).Inv(candidates, concurrency)
  {
    match e
    case Defer(p) => DeferKeepsInv(s, p, candidates, concurrency);
    case Fail(p, at) => FailKeepsInv(s, p, at, candidates, concurrency);
    case Refill(checked, woke) => RefillKeepsInv(s, candidates, concurrency, checked, woke);
  }

  // ---- Runs ------------------------------------------------------------------

  ghost function After(s: State, run: seq<Event>, candidates: seq<Peer>, concurrency: nat): State {
    if run == [] then s
    else Step(After(s, run[..|run| - 1], candidates, concurrency), run[|run| - 1], candidates, concurrency)
  }

  ghost predicate Runs(s: State, run: seq<Event>, candidates: seq<Peer>, concurrency: nat) {
    run == [] || (
      && Runs(s, run[..|run| - 1], candidates, concurrency)
      && Enabled(After(s, run[..|run| - 1], candidates, concurrency), run[|run| - 1]))
  }

  /** Through any sequence of deferrals, failures and refills, each candidate is in
      exactly one of queue, flight and skiplist, at most `concurrency` are in
      flight, and no place in the window is idle while a peer waits. */
  lemma {:induction false} CandidatesArePartitioned(candidates: seq<Peer>, concurrency: nat, now: nat, run: seq<Event>)
    requires Distinct(candidates) && concurrency >= 1
    requires Runs(Begin(candidates, concurrency, now), run, candidates, concurrency)
    ensures var s := After(Begin(candidates, concurrency, now), run, candidates, concurrency);
            && s.WindowFull(concurrency)
            && (!s.gaveUp ==> s.Partitioned(candidates))
            && s.Inv(candidates, concurrency)
  {
    var start := Begin(candidates, concurrency, now);
    if run == [] {
      BeginsSound(candidates, concurrency, now);
    } else {
      var n := |run| - 1;
      CandidatesArePartitioned(candidates, concurrency, now, run[..n]);
      StepKeepsInv(After(start, run[..n], candidates, concurrency), run[n], candidates, concurrency);
    }
  }

  /** Each completion starts the front of the queue and moves the rest up by one. */
  lemma QueueAdvances(s: State, e: Event, candidates: seq<Peer>, concurrency: nat)
    requires s.deque != [] && Enabled(s, e)
    ensures var t := Step(s, e, candidates, concurrency);
            s.deque[0] in t.inflight && s.deque[1..] <= t.deque
  {
    match e
    case Defer(p) =>
      SeedStartsFront(s.(inflight := s.inflight - {p}, deque := s.deque + [p]), 1);
      assert (s.deque + [p])[1..] == s.deque[1..] + [p];
    case Fail(p, at) =>
      SeedStartsFront(s.(inflight := s.inflight - {p}), 1);
    case Refill(_, _) =>
      assert false;
  }

  lemma {:induction false} QueueMovesUp(s: State, run: seq<Event>, candidates: seq<Peer>, concurrency: nat)
    requires Runs(s, run, candidates, concurrency) && |run| <= |s.deque|
    ensures s.deque[|run|..] <= After(s, run, candidates, concurrency).deque
    decreases |run|
  {
    if run != [] {
      var n := |run| - 1;
      QueueMovesUp(s, run[..n], candidates, concurrency);
      var before := After(s, run[..n], candidates, concurrency);
      assert before.deque != [];
      QueueAdvances(before, run[n], candidates, concurrency);
      PrefixTail(s.deque, n, before.deque, After(s, run, candidates, concurrency).deque);
    }
  }

  lemma PrefixTail(a: seq<Peer>, n: nat, b: seq<Peer>, c: seq<Peer>)
    requires n < |a| && a[n..] <= b && b[1..] <= c
    ensures a[n + 1..] <= c
  {
    assert a[n + 1..] == a[n..][1..];
  }

  /** No waiting peer is passed over: the one at place `i` is in flight after `i + 1`
      completions of whatever kind, deferred peers queueing behind it. */
  lemma WaitingPeerStarts(s: State, run: seq<Event>, i: nat, candidates: seq<Peer>, concurrency: nat)
    requires Runs(s, run, candidates, concurrency) && i < |s.deque| && |run| == i + 1
    ensures s.deque[i] in After(s, run, candidates, concurrency).inflight
  {
    QueueMovesUp(s, run[..i], candidates, concurrency);
    var before := After(s, run[..i], candidates, concurrency);
    assert s.deque[i..][0] == before.deque[0];
    QueueAdvances(before, run[i], candidates, concurrency);
  }

  lemma ParkHolds(s: State, e: Event, p: Peer, until: nat, candidates: seq<Peer>, concurrency: nat)
    requires s.Inv(candidates, concurrency) && Enabled(s, e)
    requires (p in s.skiplist && s.skiplist[p] == until) || until <= s.clock
    ensures var t := Step(s, e, candidates, concurrency);
            (p in t.skiplist && t.skiplist[p] == until) || until <= t.clock
  {
    if e.Refill? && p in s.skiplist && s.skiplist[p] == until && e.woke < until {
      assert p in Live(s.skiplist, e.checked);
    }
  }

  lemma {:induction false} ParkHoldsOverRuns(s: State, run: seq<Event>, p: Peer, until: nat,
                                             candidates: seq<Peer>, concurrency: nat)
    requires Distinct(candidates) && concurrency >= 1 && s.Inv(candidates, concurrency)
    requires Runs(s, run, candidates, concurrency)
    requires p in s.skiplist && s.skiplist[p] == until
    ensures var t := After(s, run, candidates, concurrency);
            t.Inv(candidates, concurrency) && ((p in t.skiplist && t.skiplist[p] == until) || until <= t.clock)
    decreases |run|
  {
    if run != [] {
      var n := |run| - 1;
      ParkHoldsOverRuns(s, run[..n], p, until, candidates, concurrency);
      var before := After(s, run[..n], candidates, concurrency);
      ParkHolds(before, run[n], p, until, candidates, concurrency);
      StepKeepsInv(before, run[n], candidates, concurrency);
    }
  }

  /** A peer that failed is not asked again for a minute: whatever happens after, as
      long as the loop goes on it is neither queued nor in flight before then. */
  lemma FailedPeerRests(s: State, p: Peer, at: nat, run: seq<Event>, candidates: seq<Peer>, concurrency: nat)
    requires Distinct(candidates) && concurrency >= 1 && s.Inv(candidates, concurrency)
    requires Enabled(s, Fail(p, at)) && Runs(s.Failed(p, at), run, candidates, concurrency)
    ensures var t := After(s.Failed(p, at), run, candidates, concurrency);
            !t.gaveUp && (p in t.deque || p in t.inflight) ==> at + 60_000 <= t.clock
  {
    FailKeepsInv(s, p, at, candidates, concurrency);
    ParkHoldsOverRuns(s.Failed(p, at), run, p, at + SKIPLIST_MS, candidates, concurrency);
  }

  /** Every time it runs dry, the loop looks for parked peers within the skip time of
      its last failure. */
  ghost predicate Prompt(s: State, run: seq<Event>, candidates: seq<Peer>, concurrency: nat) {
    run == [] || (
      var before := After(s, run[..|run| - 1], candidates, concurrency);
      var e := run[|run| - 1];
      && Prompt(s, run[..|run| - 1], candidates, concurrency)
      && (e.Refill? ==> e.checked < before.clock + SKIPLIST_MS))
  }

  /** A prompt loop with any candidate at all never gives up, however often every
      peer fails: the error it would return is reached only without candidates. */
  lemma {:induction false} PromptLoopPersists(candidates: seq<Peer>, concurrency: nat, now: nat, run: seq<Event>)
    requires Distinct(candidates) && candidates != [] && concurrency >= 1
    requires Runs(Begin(candidates, concurrency, now), run, candidates, concurrency)
    requires Prompt(Begin(candidates, concurrency, now), run, candidates, concurrency)
    ensures !After(Begin(candidates, concurrency, now), run, candidates, concurrency).gaveUp
  {
    if run != [] {
      var n := |run| - 1;
      var before := After(Begin(candidates, concurrency, now), run[..n], candidates, concurrency);
      PromptLoopPersists(candidates, concurrency, now, run[..n]);
      CandidatesArePartitioned(candidates, concurrency, now, run[..n]);
      if run[n].Refill? {
        RefillGivesUp(before, candidates, concurrency, run[n].checked, run[n].woke);
      }
    }
  }
}
