/** The upload dispatcher: a bounded number of chunk dispatches in flight, finishing
    in any order, each retried a bounded number of times. */
module Upload {
  import opened Arith
  import opened MapSums

  const MAX_CHUNK_RETRIES: nat := 60
  const CONCURRENT_PUSHES: nat := 128

  /** How one dispatch of a chunk through the peer pool ends. */
  datatype Outcome = Receipt | ShallowOnly | BatchNotFound | Failure(reason: nat)

  /** What the caller is told about a chunk. */
  datatype Fate = Stored | AcceptedShallow | Lost(cause: Outcome)

  datatype UploadError = NoPeers | ChunkFailed(cause: Outcome)

  /** The network: what attempt `n` at a chunk would come to, taken as given for each
      chunk and attempt. */
  type Network = (nat, nat) -> Outcome

  // ---- One chunk --------------------------------------------------

  /** A dispatch that is not retried. */
  predicate Settles(outcome: Outcome, attempt: nat) {
    outcome.Receipt? || outcome.BatchNotFound? || attempt + 1 >= MAX_CHUNK_RETRIES
  }

  function Verdict(outcome: Outcome): Fate {
    match outcome
    case Receipt => Stored
    case ShallowOnly => AcceptedShallow
    case BatchNotFound => Lost(outcome)
    case Failure(_) => Lost(outcome)
  }

  /** The last attempt at a chunk that has got as far as `attempt`. */
  function LastAttempt(net: Network, c: nat, attempt: nat): (last: nat)
    requires attempt < MAX_CHUNK_RETRIES
    ensures last < MAX_CHUNK_RETRIES
    decreases MAX_CHUNK_RETRIES - attempt
  {
    if Settles(net(c, attempt), attempt) then attempt else LastAttempt(net, c, attempt + 1)
  }

  /** It is the first one from there on that settles the chunk. */
  lemma {:induction false} LastAttemptSettlesFirst(net: Network, c: nat, attempt: nat)
    requires attempt < MAX_CHUNK_RETRIES
    ensures var last := LastAttempt(net, c, attempt);
            && attempt <= last
            && Settles(net(c, last), last)
            && forall a :: attempt <= a < last ==> !Settles(net(c, a), a)
    decreases MAX_CHUNK_RETRIES - attempt
  {
    if !Settles(net(c, attempt), attempt) {
      LastAttemptSettlesFirst(net, c, attempt + 1);
    }
  }

  /** What the outcomes of its attempts make of a chunk. */
  function FateOf(net: Network, c: nat): Fate {
    Verdict(net(c, LastAttempt(net, c, 0)))
  }

  /** A receipt or a missing batch decides a chunk at once. Anything else is tried
      again until the sixtieth attempt, whose outcome then stands: a shallow
      receipt is accepted and a failure is fatal. */
  lemma FateIsFirstDecision(net: Network, c: nat, a: nat)
    requires a < 60
    requires forall b :: 0 <= b < a ==> net(c, b).ShallowOnly? || net(c, b).Failure?
    ensures net(c, a).Receipt? ==> FateOf(net, c) == Stored
    ensures net(c, a).BatchNotFound? ==> FateOf(net, c) == Lost(BatchNotFound)
    ensures a == 59 && net(c, a).ShallowOnly? ==> FateOf(net, c) == AcceptedShallow
    ensures a == 59 && net(c, a).Failure? ==> FateOf(net, c) == Lost(net(c, a))
  {
    LastAttemptSettlesFirst(net, c, 0);
    var last := LastAttempt(net, c, 0);
    if Settles(net(c, a), a) {
      assert last <= a;
    }
  }

  // ---- All chunks together ---------------------------------------------------

  /** The dispatcher's loop variables. */
  datatype Progress = Progress(
    next: nat,
    inflight: map<nat, nat>,
    reported: seq<nat>,
    verdicts: seq<Fate>,
    dispatches: map<nat, nat>,
    pushed: nat,
    more: bool,
    failure: Option<Outcome>)
  {
    predicate Going() { failure.None? && (more || inflight != map[]) }

    function Dispatched(c: nat): map<nat, nat> {
      dispatches[c := if c in dispatches then dispatches[c] + 1 else 1]
    }

    function Start(): Progress {
      this.(inflight := inflight[next := 0], dispatches := Dispatched(next), next := next + 1)
    }

    function Retry(c: nat): Progress
      requires c in inflight
    {
      this.(inflight := inflight[c := inflight[c] + 1], dispatches := Dispatched(c))
    }

    function Report(c: nat, fate: Fate): Progress {
      this.(inflight := inflight - {c}, reported := reported + [c], verdicts := verdicts + [fate])
    }

    function Refill(total: nat): Progress {
      if next < total then Start() else this.(more := false)
    }

    /** A dispatch of chunk `c` comes back. */
    function Complete(c: nat, outcome: Outcome, total: nat): Progress
      requires c in inflight
    {
      if !Settles(outcome, inflight[c]) then Retry(c)
      else if Verdict(outcome).Lost? then Report(c, Verdict(outcome)).(failure := Some(outcome))
      else Report(c, Verdict(outcome)).(pushed := pushed + 1).Refill(total)
    }

    /** Every chunk handed out is either in flight, on the way to its own fate, or
        reported with it. */
    ghost predicate Tracked(net: Network) {
      && |reported| == |verdicts|
      && Distinct(reported)
      && (forall c :: c in inflight || c in reported <==> 0 <= c < next)
      && (forall c :: c in inflight ==> c !in reported)
      && (forall c :: c in inflight ==> OnCourse(net, c, inflight[c]))
      && (forall i :: 0 <= i < |reported| ==> verdicts[i] == FateOf(net, reported[i]))
    }

    /** Dispatches so far: one for each attempt begun, none for a chunk not yet handed out. */
    ghost predicate Tallied(net: Network) {
      && (forall c :: c in dispatches ==> c < next)
      && (forall c :: c in inflight ==> c in dispatches && dispatches[c] == inflight[c] + 1)
      && (forall c :: c in reported ==> c in dispatches && dispatches[c] == LastAttempt(net, c, 0) + 1)
    }

    ghost predicate Counted(total: nat, buffer: nat) {
      && next <= total
      && |inflight| <= buffer
      && |inflight| + |reported| == next
      && (failure.None? ==> pushed == |reported|)
      && (failure.None? && more ==> inflight != map[])
      && (!more ==> next == total)
    }

    /** Nothing reported is lost, but for the failure that ended the upload. */
    ghost predicate Honest() {
      && |verdicts| == |reported|
      && (forall i :: 0 <= i < |verdicts| && i < pushed ==> !verdicts[i].Lost?)
      && (failure.None? ==> pushed == |verdicts|)
      && (failure.Some? ==> pushed + 1 == |verdicts| && verdicts[pushed] == Lost(failure.value))
    }
  }

  ghost predicate OnCourse(net: Network, c: nat, attempt: nat) {
    attempt < MAX_CHUNK_RETRIES && LastAttempt(net, c, attempt) == LastAttempt(net, c, 0)
  }

  lemma RetryStaysOnCourse(net: Network, c: nat, attempt: nat)
    requires OnCourse(net, c, attempt) && !Settles(net(c, attempt), attempt)
    ensures OnCourse(net, c, attempt + 1)
  {
  }

  lemma SettledMeetsFate(net: Network, c: nat, attempt: nat)
    requires OnCourse(net, c, attempt) && Settles(net(c, attempt), attempt)
    ensures Verdict(net(c, attempt)) == FateOf(net, c)
  {
  }

  lemma StartKeepsTrack(net: Network, p: Progress)
    requires p.Tracked(net)
    ensures p.Start().Tracked(net)
    ensures p.next !in p.inflight
  {
  }

  lemma RetryKeepsTrack(net: Network, p: Progress, c: nat)
    requires p.Tracked(net) && c in p.inflight
    requires !Settles(net(c, p.inflight[c]), p.inflight[c])
    ensures p.Retry(c).Tracked(net)
  {
    RetryStaysOnCourse(net, c, p.inflight[c]);
  }

  lemma ReportKeepsTrack(net: Network, p: Progress, c: nat)
    requires p.Tracked(net) && c in p.inflight
    requires Settles(net(c, p.inflight[c]), p.inflight[c])
    ensures p.Report(c, Verdict(net(c, p.inflight[c]))).Tracked(net)
  {
    SettledMeetsFate(net, c, p.inflight[c]);
    var after := p.reported + [c];
    assert forall d :: d in after <==> d in p.reported || d == c;
  }

  lemma CompleteKeepsTrack(net: Network, p: Progress, c: nat, total: nat)
    requires p.Tracked(net) && c in p.inflight
    ensures p.Complete(c, net(c, p.inflight[c]), total).Tracked(net)
  {
    var outcome := net(c, p.inflight[c]);
    if Settles(outcome, p.inflight[c]) {
      ReportKeepsTrack(net, p, c);
      var q := p.Report(c, Verdict(outcome)).(pushed := p.pushed + 1);
      assert q.Tracked(net);
      StartKeepsTrack(net, q);
    } else {
      RetryKeepsTrack(net, p, c);
    }
  }

  lemma SettledIsLast(net: Network, c: nat, attempt: nat)
    requires OnCourse(net, c, attempt) && Settles(net(c, attempt), attempt)
    ensures LastAttempt(net, c, 0) == attempt
  {
  }

  lemma RetryKeepsTally(net: Network, p: Progress, c: nat)
    requires p.Tracked(net) && p.Tallied(net) && c in p.inflight
    ensures p.Retry(c).Tallied(net)
  {
  }

  lemma ReportKeepsTally(net: Network, p: Progress, c: nat)
    requires p.Tracked(net) && p.Tallied(net) && c in p.inflight
    requires Settles(net(c, p.inflight[c]), p.inflight[c])
    ensures p.Report(c, Verdict(net(c, p.inflight[c]))).Tallied(net)
  {
    assert OnCourse(net, c, p.inflight[c]);
    SettledIsLast(net, c, p.inflight[c]);
  }

  lemma StartKeepsTally(net: Network, p: Progress)
    requires p.Tracked(net) && p.Tallied(net)
    ensures p.Start().Tallied(net)
  {
    assert p.next !in p.dispatches;
  }

  lemma SettledKeepsTally(net: Network, p: Progress, q: Progress, total: nat)
    requires p.Tracked(net) && p.Tallied(net)
    requires q == p.(pushed := q.pushed, failure := q.failure)
    ensures q.Tallied(net) && q.Refill(total).Tallied(net)
  {
    if q.next < total {
      StartKeepsTally(net, q);
    }
  }

  lemma CompleteKeepsTally(net: Network, p: Progress, c: nat, total: nat)
    requires p.Tracked(net) && p.Tallied(net) && c in p.inflight
    ensures p.Complete(c, net(c, p.inflight[c]), total).Tallied(net)
  {
    var outcome := net(c, p.inflight[c]);
    if !Settles(outcome, p.inflight[c]) {
      RetryKeepsTally(net, p, c);
    } else {
      var q := p.Report(c, Verdict(outcome));
      ReportKeepsTrack(net, p, c);
      ReportKeepsTally(net, p, c);
      if Verdict(outcome).Lost? {
        SettledKeepsTally(net, q, q.(failure := Some(outcome)), total);
      } else {
        SettledKeepsTally(net, q, q.(pushed := q.pushed + 1), total);
      }
    }
  }

  lemma CompleteKeepsCount(p: Progress, c: nat, outcome: Outcome, total: nat, buffer: nat)
    requires p.Counted(total, buffer) && p.failure.None? && c in p.inflight && p.next !in p.inflight
    ensures p.Complete(c, outcome, total).Counted(total, buffer)
  {
    assert |p.inflight - {c}| == |p.inflight| - 1 by {
      assert (p.inflight - {c}).Keys == p.inflight.Keys - {c};
    }
  }

  lemma CompleteStaysHonest(p: Progress, c: nat, outcome: Outcome, total: nat)
    requires p.Honest() && p.failure.None? && c in p.inflight
    ensures p.Complete(c, outcome, total).Honest()
  {
  }

  /** Attempts left to the chunks in flight. */
  ghost function Budget(inflight: map<nat, nat>): map<nat, nat> {
    map c | c in inflight :: SatSub(MAX_CHUNK_RETRIES, inflight[c])
  }

  lemma RetrySpendsBudget(inflight: map<nat, nat>, c: nat)
    requires c in inflight && inflight[c] < MAX_CHUNK_RETRIES
    ensures Sum(Budget(inflight[c := inflight[c] + 1])) < Sum(Budget(inflight))
  {
    var left := MAX_CHUNK_RETRIES - inflight[c] - 1;
    assert Budget(inflight[c := inflight[c] + 1]) == Budget(inflight)[c := left];
    SumUpdate(Budget(inflight), c, left);
  }

  lemma ReportSpendsBudget(inflight: map<nat, nat>, c: nat)
    requires c in inflight && inflight[c] < MAX_CHUNK_RETRIES
    ensures Sum(Budget(inflight - {c})) < Sum(Budget(inflight))
  {
    assert Budget(inflight - {c}) == Budget(inflight) - {c};
    SumDrop(Budget(inflight), c);
  }

  /** Each completion hands out a chunk for the first time or spends an attempt. */
  lemma CompleteAdvances(p: Progress, c: nat, outcome: Outcome, total: nat)
    requires c in p.inflight && p.inflight[c] < MAX_CHUNK_RETRIES && p.next <= total
    ensures var q := p.Complete(c, outcome, total);
            q.next > p.next || (q.next == p.next && Sum(Budget(q.inflight)) < Sum(Budget(p.inflight)))
  {
    RetrySpendsBudget(p.inflight, c);
    ReportSpendsBudget(p.inflight, c);
  }

  /** Once all is reported and nothing failed, every chunk was met with success. */
  lemma AllReported(net: Network, p: Progress, total: nat, c: nat)
    requires p.Tracked(net) && p.Honest() && p.failure.None? && p.inflight == map[] && p.next == total
    requires c < total
    ensures c in p.reported && !FateOf(net, c).Lost?
  {
    assert c in p.inflight || c in p.reported;
    var i :| 0 <= i < |p.reported| && p.reported[i] == c;
    assert p.verdicts[i] == FateOf(net, p.reported[i]);
  }

  lemma FailureIsSomeFate(net: Network, p: Progress, total: nat)
    requires p.Tracked(net) && p.Honest() && p.failure.Some? && p.next <= total
    ensures exists c :: 0 <= c < total && FateOf(net, c).Lost?
  {
    var c := p.reported[p.pushed];
    assert c in p.reported;
    assert FateOf(net, c).Lost?;
  }

  lemma DispatchesBounded(net: Network, p: Progress)
    requires p.Tracked(net) && p.Tallied(net)
    ensures forall c :: c in p.dispatches ==> 0 < p.dispatches[c] <= MAX_CHUNK_RETRIES
  {
    forall c | c in p.dispatches
      ensures 0 < p.dispatches[c] <= MAX_CHUNK_RETRIES
    {
      assert c in p.inflight || c in p.reported;
      if c in p.inflight {
        assert OnCourse(net, c, p.inflight[c]);
      }
    }
  }

  ghost predicate Sound(p: Progress, net: Network, total: nat, buffer: nat) {
    p.Tracked(net) && p.Tallied(net) && p.Counted(total, buffer) && p.Honest()
  }

  lemma CompleteKeepsSound(net: Network, p: Progress, c: nat, total: nat, buffer: nat)
    requires Sound(p, net, total, buffer) && p.failure.None? && c in p.inflight
    ensures Sound(p.Complete(c, net(c, p.inflight[c]), total), net, total, buffer)
    ensures p.inflight[c] < MAX_CHUNK_RETRIES
  {
    assert OnCourse(net, c, p.inflight[c]);
    assert p.next !in p.inflight;
    CompleteKeepsTrack(net, p, c, total);
    CompleteKeepsTally(net, p, c, total);
    CompleteKeepsCount(p, c, net(c, p.inflight[c]), total, buffer);
    CompleteStaysHonest(p, c, net(c, p.inflight[c]), total);
  }

  method FillBuffer(total: nat, buffer: nat, ghost net: Network) returns (p: Progress)
    requires total > 0 && buffer > 0
    ensures Sound(p, net, total, buffer) && p.failure.None? && |p.inflight| == Min(buffer, total)
  {
    p := Progress(0, map[], [], [], map[], 0, true, None);
    while p.next < buffer && p.next < total
      invariant p == Progress(p.next, p.inflight, [], [], p.dispatches, 0, true, None)
      invariant p.next <= total && |p.inflight| == p.next <= buffer
      invariant p.Tracked(net) && p.Tallied(net)
    {
      StartKeepsTrack(net, p);
      p := p.Start();
    }
  }

  /** Keeping `buffer` dispatches in flight until every chunk is handed out. */
  method RunDispatches(total: nat, buffer: nat, net: Network) returns (p: Progress, peak: nat)
    requires total > 0 && buffer > 0
    ensures Sound(p, net, total, buffer)
    ensures p.failure.None? ==> p.inflight == map[] && !p.more
    ensures peak == Min(buffer, total)
  {
    p := FillBuffer(total, buffer, net);
    peak := |p.inflight|;
    while p.Going()
      invariant Sound(p, net, total, buffer)
      invariant peak == Min(buffer, total)
      decreases total - p.next, Sum(Budget(p.inflight))
    {
      var c :| c in p.inflight.Keys;
      CompleteKeepsSound(net, p, c, total, buffer);
      CompleteAdvances(p, c, net(c, p.inflight[c]), total);
      p := p.Complete(c, net(c, p.inflight[c]), total);
      peak := Max(peak, |p.inflight|);
    }
  }

  /** Whichever order dispatches finish in, each chunk meets the fate that the
      outcomes of its own attempts decide. The upload succeeds exactly when all of them do, having told the
      caller of every chunk once; it stops at the first chunk lost. No chunk is
      dispatched more than sixty times, and `buffer` are in flight at the most, if
      there are so many. */
  method PushChunks(total: nat, pool: nat, mult: nat, net: Network)
    returns (result: Result<(), UploadError>, reported: seq<nat>, verdicts: seq<Fate>,
             dispatches: map<nat, nat>, pushed: nat, peak: nat)
    requires mult > 0
    ensures |reported| == |verdicts| && Distinct(reported)
    ensures forall i :: 0 <= i < |reported| ==> reported[i] < total && verdicts[i] == FateOf(net, reported[i])
    ensures forall c :: c in dispatches ==> c < total && 0 < dispatches[c] <= 60
    ensures forall c :: c in reported ==> c in dispatches && dispatches[c] == LastAttempt(net, c, 0) + 1
    ensures pushed == if result.Err? && pool > 0 then |reported| - 1 else |reported|
    ensures forall i :: 0 <= i < pushed ==> !verdicts[i].Lost?
    ensures result.Ok? <==> total == 0 || (pool > 0 && forall c :: 0 <= c < total ==> !FateOf(net, c).Lost?)
    ensures result.Ok? ==> pushed == total && forall c :: 0 <= c < total ==> c in reported
    ensures result == Err(NoPeers) <==> total > 0 && pool == 0
    ensures result.Err? && pool > 0 ==> verdicts[pushed] == Lost(result.error.cause)
    ensures peak == if pool == 0 then 0 else Min(Max(Min(128 * mult, total), pool), total)
  {
    if total == 0 {
      return Ok(()), [], [], map[], 0, 0;
    }
    if pool == 0 {
      return Err(NoPeers), [], [], map[], 0, 0;
    }
    var p, most := RunDispatches(total, Max(Min(CONCURRENT_PUSHES * mult, total), pool), net);
    reported, verdicts, dispatches, pushed, peak := p.reported, p.verdicts, p.dispatches, p.pushed, most;
    DispatchesBounded(net, p);
    forall i | 0 <= i < |reported|
      ensures reported[i] < total
    {
      assert reported[i] in p.reported;
    }
    match p.failure
    case Some(cause) =>
      FailureIsSomeFate(net, p, total);
      result := Err(ChunkFailed(cause));
    case None =>
      forall c | 0 <= c < total
        ensures c in reported && !FateOf(net, c).Lost?
      {
        AllReported(net, p, total, c);
      }
      result := Ok(());
  }
}
