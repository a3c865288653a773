/** What whole runs of a metered lane guarantee: honest runs never overpay, clean
    runs keep both books equal and inside the line, corrections land, and a lane
    with nothing in flight can always go on. */
module LaneRuns {
  import opened Meter
  import opened Ledgers
  import opened Payer
  import opened LaneProtocol

  // ---- Honest runs ---------------------------------------------------------

  /** Every body that reaches the relay is refused, or booked without a rejected
      frame, every outcome reaches the client, and the relay stays up. Refunds,
      reconciliations, lost payment replies and late payments are all allowed. */
  predicate Honest(e: Event) {
    !e.Break? && !e.Drop? && !e.Restart? && (e.Book? ==> e.rejected == 0)
  }

  predicate HonestPostInv(x: Post) {
    x.waiting && !x.stage.Dropped? && (x.stage.Booked? ==> x.stage.rejected == 0)
  }

  ghost predicate HonestWith(cfg: Config, s: State, a: Sums) {
    && SkewWith(cfg, s, a) <= 0
    && s.lane.owed + s.lane.pending <= cfg.params.maxOutstanding
    && (forall id :: id in s.posts ==> HonestPostInv(s.posts[id]))
    && !s.mode.Correcting? && !s.mode.Corrected?
    && (s.mode.Paying? ==> s.mode.mayCorrect)
    && (s.mode.Replied? ==> !s.mode.reply.Overpaid?)
    && s.since.forfeited == 0
  }

  ghost predicate HonestInv(cfg: Config, s: State) {
    Inv(cfg, s) && HonestWith(cfg, s, SumsOf(cfg.params, s.posts))
  }

  /** With every POST waiting and no skew, a cheque never credits more than is owed. */
  lemma NeverOverpaid(cfg: Config, s: State, a: Sums, sig: Signature)
    requires Sound(cfg) && InvWith(cfg, s, a) && HonestWith(cfg, s, a) && a.early == 0 && s.mode.Paying?
    ensures !HandlePay(cfg, s.relay, s.mode.cheque, sig).1.Overpaid?
    ensures !HandlePay(cfg, s.relay, s.mode.cheque, sig).1.Foreign?
    ensures HandlePay(cfg, s.relay, s.mode.cheque, sig).1.Credited? <==>
              && s.mode.cheque <= MAX_CUMULATIVE
              && s.lane.owed >= Last(cfg, s) - s.lane.cumulative + Floor(cfg)
  {
    EffectiveOrdered(cfg.params, cfg.cap);
    CreditAccepts(s.relay, cfg.account, cfg.chequebook, s.mode.cheque, sig);
  }

  lemma HonestTalk(cfg: Config, s: State, e: Event, a: Sums)
    requires Sound(cfg) && InvWith(cfg, s, a) && HonestWith(cfg, s, a) && Ordered(a) && a.early == 0
    requires Enabled(cfg, s, e) && Honest(e) && (Talk(e) || Cheque(e))
    ensures HonestWith(cfg, Step(cfg, s, e), a)
  {
    TalkLaw(cfg, s, e, a);
    if e.PayArrive? {
      NeverOverpaid(cfg, s, a, e.signature);
    }
  }

  /** A heard answer without rejected frames never puts the client ahead. */
  lemma HonestAnswer(p: Params, x: Post)
    requires x.stage.Booked? && x.stage.rejected == 0 && x.stage.dedup <= x.bytes
    ensures Price(p, x.bytes) - Price(p, x.stage.dedup) - Price(p, Billed(x)) <= 0
  {
    PriceSplit(p, x.bytes, x.stage.dedup);
  }

  lemma HonestPost(cfg: Config, s: State, e: Event, a: Sums, b: Sums)
    requires Sound(cfg) && InvWith(cfg, s, a) && HonestWith(cfg, s, a) && Ordered(a)
    requires Enabled(cfg, s, e) && Honest(e) && Moves(e)
    requires var (id, x, y) := Touched(cfg, s, e);
             Shifted(cfg.params, a, b, x, y) && Contains(cfg.params, a, x)
    ensures HonestWith(cfg, Step(cfg, s, e), b)
  {
    PostLaw(cfg, s, e, a, b);
    if e.Dispatch? {
      DispatchMoves(cfg, s, e, a, b);
    } else if e.Answer? {
      AnswerNeverAdds(cfg, s, e, a);
      assert PostInv(s.posts[e.id]);
      if s.posts[e.id].stage.Booked? {
        HonestAnswer(cfg.params, s.posts[e.id]);
      }
    }
  }

  lemma HonestTalkStep(cfg: Config, s: State, e: Event, t: State)
    requires Sound(cfg) && HonestInv(cfg, s) && Enabled(cfg, s, e) && Honest(e) && t == Step(cfg, s, e)
    requires Talk(e) || Cheque(e)
    ensures HonestWith(cfg, t, SumsOf(cfg.params, t.posts))
  {
    TalkKeepsPosts(cfg, s, e);
    SumsOrdered(cfg.params, s.posts);
    AllWaiting(cfg.params, s.posts);
    HonestTalk(cfg, s, e, SumsOf(cfg.params, s.posts));
  }

  lemma HonestPostStep(cfg: Config, s: State, e: Event, t: State)
    requires Sound(cfg) && HonestInv(cfg, s) && Enabled(cfg, s, e) && Honest(e) && t == Step(cfg, s, e)
    requires Moves(e)
    ensures HonestWith(cfg, t, SumsOf(cfg.params, t.posts))
  {
    SumsOrdered(cfg.params, s.posts);
    TouchedShift(cfg, s, e);
    HonestPost(cfg, s, e, SumsOf(cfg.params, s.posts), SumsOf(cfg.params, t.posts));
  }

  lemma HonestStep(cfg: Config, s: State, e: Event)
    requires Sound(cfg) && HonestInv(cfg, s) && Enabled(cfg, s, e) && Honest(e)
    ensures HonestInv(cfg, Step(cfg, s, e))
  {
    var t := Step(cfg, s, e);
    StepLaw(cfg, s, e);
    if Talk(e) || Cheque(e) {
      HonestTalkStep(cfg, s, e, t);
    } else {
      HonestPostStep(cfg, s, e, t);
    }
  }

  ghost predicate AllHonest(es: seq<Event>) { forall i :: 0 <= i < |es| ==> Honest(es[i]) }

  lemma {:induction false} HonestRun(cfg: Config, s: State, es: seq<Event>)
    requires Sound(cfg) && HonestInv(cfg, s) && Runs(cfg, s, es) && AllHonest(es)
    ensures HonestInv(cfg, After(cfg, s, es))
    decreases |es|
  {
    if es != [] {
      HonestStep(cfg, s, es[0]);
      HonestRun(cfg, Step(cfg, s, es[0]), es[1..]);
    }
  }

  /** In every honest run the client's debt plus the bodies booked but not yet
      answered stays within the relay's debt plus payments whose reply was lost;
      and a cheque presented then is never refused as an overpayment. It is
      credited exactly when the debt, less those unacknowledged payments,
      reaches the dust floor. */
  lemma HonestRunsNeverOverpay(cfg: Config, s0: State, es: seq<Event>, sig: Signature)
    requires Sound(cfg) && Started(cfg, s0) && Runs(cfg, s0, es) && AllHonest(es)
    ensures var s := After(cfg, s0, es);
            && s.lane.owed + SumsOf(cfg.params, s.posts).unanswered
                 <= Owed(cfg, s) + (Last(cfg, s) - s.lane.cumulative)
            && s.lane.owed + s.lane.pending <= cfg.params.maxOutstanding
            && (s.mode.Paying? ==>
                  var reply := HandlePay(cfg, s.relay, s.mode.cheque, sig).1;
                  && !reply.Overpaid?
                  && (reply.Credited? <==>
                        && s.mode.cheque <= MAX_CUMULATIVE
                        && s.lane.owed >= Last(cfg, s) - s.lane.cumulative + Floor(cfg)))
  {
    StartedInv(cfg, s0);
    HonestRun(cfg, s0, es);
    var s := After(cfg, s0, es);
    AllWaiting(cfg.params, s.posts);
    if s.mode.Paying? {
      NeverOverpaid(cfg, s, SumsOf(cfg.params, s.posts), sig);
    }
  }

  // ---- Clean runs ----------------------------------------------------------

  /** Honest, no capability denied, every admitted body billed whole, and no payment
      reply lost. */
  predicate Clean(e: Event) { Honest(e) && !e.Lost? && !e.Deny? && (e.Book? ==> e.dedup == 0) }

  predicate CleanPostInv(x: Post) { x.stage == OnWire || x.stage == Admitted || x.stage == Booked(0, 0) }

  ghost predicate CleanWith(cfg: Config, s: State, a: Sums) {
    && SkewWith(cfg, s, a) == 0
    && s.lane.owed + s.lane.pending <= cfg.cap
    && (if s.mode.Replied? && s.mode.reply.Credited? then Last(cfg, s) == s.mode.cheque
        else Last(cfg, s) == s.lane.cumulative)
    && (s.mode.Replied? ==> s.mode.reply.Credited? || s.mode.reply.Implausible?)
    && (forall id :: id in s.posts ==> CleanPostInv(s.posts[id]))
    && s.late == {} && s.since.credited == 0
  }

  ghost predicate CleanInv(cfg: Config, s: State) {
    HonestInv(cfg, s) && CleanWith(cfg, s, SumsOf(cfg.params, s.posts))
  }

  lemma CleanTalk(cfg: Config, s: State, e: Event, a: Sums)
    requires Sound(cfg) && InvWith(cfg, s, a) && HonestWith(cfg, s, a) && CleanWith(cfg, s, a)
    requires Ordered(a) && a.early == 0
    requires Enabled(cfg, s, e) && Clean(e) && (Talk(e) || Cheque(e))
    ensures CleanWith(cfg, Step(cfg, s, e), a)
  {
    TalkLaw(cfg, s, e, a);
    if e.PayArrive? {
      NeverOverpaid(cfg, s, a, e.signature);
      EffectiveOrdered(cfg.params, cfg.cap);
      CreditAccepts(s.relay, cfg.account, cfg.chequebook, s.mode.cheque, e.signature);
    }
  }

  /** `b` are the sums once the arriving body `x` holds its reservation. */
  lemma RoomFor(cfg: Config, s: State, a: Sums, b: Sums, x: Post)
    requires Sound(cfg) && InvWith(cfg, s, a) && HonestWith(cfg, s, a) && CleanWith(cfg, s, a) && a.early == 0
    requires x.waiting && x.stage.OnWire? && Shifted(cfg.params, a, b, x, x.(stage := Admitted))
    requires b.unanswered + b.holding <= b.waiting
    ensures Owed(cfg, s) + a.holding + Price(cfg.params, x.bytes) <= cfg.cap
  {
  }

  /** A body dispatched inside the line is admitted: with both books equal, the
      relay sees no more outstanding than the client counted. */
  lemma ArrivalFits(cfg: Config, s: State, id: nat)
    requires Sound(cfg) && CleanInv(cfg, s) && id in s.posts && s.posts[id].stage.OnWire?
    ensures Owed(cfg, s) + SumsOf(cfg.params, s.posts).holding + Price(cfg.params, s.posts[id].bytes) <= cfg.cap
  {
    var x := s.posts[id];
    var after := s.posts[id := x.(stage := Admitted)];
    SumsShift(cfg.params, s.posts, after, id, x, x.(stage := Admitted));
    AllWaiting(cfg.params, s.posts);
    AllWaiting(cfg.params, after);
    RoomFor(cfg, s, SumsOf(cfg.params, s.posts), SumsOf(cfg.params, after), x);
  }

  lemma CleanPost(cfg: Config, s: State, e: Event, a: Sums, b: Sums)
    requires Sound(cfg) && InvWith(cfg, s, a) && HonestWith(cfg, s, a) && CleanWith(cfg, s, a) && Ordered(a)
    requires Enabled(cfg, s, e) && Clean(e) && Moves(e)
    requires var (id, x, y) := Touched(cfg, s, e);
             Shifted(cfg.params, a, b, x, y) && Contains(cfg.params, a, x)
    requires e.Arrive? ==> Owed(cfg, s) + a.holding + Price(cfg.params, s.posts[e.id].bytes) <= cfg.cap
    ensures CleanWith(cfg, Step(cfg, s, e), b)
  {
    PostLaw(cfg, s, e, a, b);
    if e.Dispatch? {
      DispatchMoves(cfg, s, e, a, b);
    } else if e.Answer? {
      AnswerNeverAdds(cfg, s, e, a);
    } else if e.Arrive? {
      ArriveVerdict(cfg, s, e, a);
    }
  }

  lemma CleanTalkStep(cfg: Config, s: State, e: Event, t: State)
    requires Sound(cfg) && CleanInv(cfg, s) && Enabled(cfg, s, e) && Clean(e) && t == Step(cfg, s, e)
    requires Talk(e) || Cheque(e)
    ensures CleanWith(cfg, t, SumsOf(cfg.params, t.posts))
  {
    TalkKeepsPosts(cfg, s, e);
    SumsOrdered(cfg.params, s.posts);
    AllWaiting(cfg.params, s.posts);
    CleanTalk(cfg, s, e, SumsOf(cfg.params, s.posts));
  }

  lemma CleanPostStep(cfg: Config, s: State, e: Event, t: State)
    requires Sound(cfg) && CleanInv(cfg, s) && Enabled(cfg, s, e) && Clean(e) && t == Step(cfg, s, e)
    requires Moves(e)
    ensures CleanWith(cfg, t, SumsOf(cfg.params, t.posts))
  {
    SumsOrdered(cfg.params, s.posts);
    TouchedShift(cfg, s, e);
    if e.Arrive? {
      ArrivalFits(cfg, s, e.id);
    }
    CleanPost(cfg, s, e, SumsOf(cfg.params, s.posts), SumsOf(cfg.params, t.posts));
  }

  lemma CleanStep(cfg: Config, s: State, e: Event)
    requires Sound(cfg) && CleanInv(cfg, s) && Enabled(cfg, s, e) && Clean(e)
    ensures CleanInv(cfg, Step(cfg, s, e))
  {
    var t := Step(cfg, s, e);
    HonestStep(cfg, s, e);
    if Talk(e) || Cheque(e) {
      CleanTalkStep(cfg, s, e, t);
    } else {
      CleanPostStep(cfg, s, e, t);
    }
  }

  ghost predicate AllClean(es: seq<Event>) { forall i :: 0 <= i < |es| ==> Clean(es[i]) }

  lemma {:induction false} CleanRun(cfg: Config, s: State, es: seq<Event>)
    requires Sound(cfg) && CleanInv(cfg, s) && Runs(cfg, s, es) && AllClean(es)
    ensures CleanInv(cfg, After(cfg, s, es))
    decreases |es|
  {
    if es != [] {
      CleanStep(cfg, s, es[0]);
      CleanRun(cfg, Step(cfg, s, es[0]), es[1..]);
    }
  }

  lemma CleanFromStart(cfg: Config, s0: State, es: seq<Event>)
    requires Sound(cfg) && InAgreement(cfg, s0) && Runs(cfg, s0, es) && AllClean(es)
    ensures CleanInv(cfg, After(cfg, s0, es))
  {
    StartedInv(cfg, s0);
    CleanRun(cfg, s0, es);
  }

  /** Both books agree: between payments the client's debt plus the bodies
      booked but not yet answered is exactly the relay's debt, and the two
      cumulatives are equal, though no total was ever exchanged. */
  lemma BooksAgree(cfg: Config, s0: State, es: seq<Event>)
    requires Sound(cfg) && InAgreement(cfg, s0) && Runs(cfg, s0, es) && AllClean(es)
    ensures var s := After(cfg, s0, es);
            && s.lane.cumulative + s.lane.owed + SumsOf(cfg.params, s.posts).unanswered == Last(cfg, s) + Owed(cfg, s)
            && (s.mode.Idle? ==>
                  && s.lane.cumulative == Last(cfg, s)
                  && s.lane.owed + SumsOf(cfg.params, s.posts).unanswered == Owed(cfg, s))
  {
    CleanFromStart(cfg, s0, es);
    AllWaiting(cfg.params, After(cfg, s0, es).posts);
  }

  /** No cheque the client computes is refused while its cumulative is plausible. */
  lemma ChequesAccepted(cfg: Config, s0: State, es: seq<Event>, sig: Signature)
    requires Sound(cfg) && InAgreement(cfg, s0) && Runs(cfg, s0, es) && AllClean(es)
    requires After(cfg, s0, es).mode.Paying? && After(cfg, s0, es).mode.cheque <= MAX_CUMULATIVE
    ensures var s := After(cfg, s0, es);
            HandlePay(cfg, s.relay, s.mode.cheque, sig).1 == Credited(s.lane.owed)
  {
    CleanFromStart(cfg, s0, es);
    var s := After(cfg, s0, es);
    AllWaiting(cfg.params, s.posts);
    NeverOverpaid(cfg, s, SumsOf(cfg.params, s.posts), sig);
  }

  /** A client that dispatches only inside its line is never over it at the
      relay: nothing is refused, bytes in flight are counted exactly, and the
      relay never sees more outstanding than the client does. */
  lemma NeverOverCap(cfg: Config, s0: State, es: seq<Event>)
    requires Sound(cfg) && InAgreement(cfg, s0) && Runs(cfg, s0, es) && AllClean(es)
    ensures var s := After(cfg, s0, es);
            && (forall id :: id in s.posts ==> !s.posts[id].stage.Refusing? && !s.posts[id].stage.Refused?)
            && s.lane.pending == Total(cfg.params, Waiting, s.posts)
            && s.relay.Outstanding(cfg.account) <= s.lane.Outstanding() <= cfg.cap
  {
    CleanFromStart(cfg, s0, es);
    AllWaiting(cfg.params, After(cfg, s0, es).posts);
  }

  /** The lane has room for a frame, or one payment makes room. */
  predicate GoesOn(cfg: Config, s: State, sig: Signature) {
    || s.lane.HasHeadroom()
    || (&& Enabled(cfg, s, PayStart)
        && Enabled(cfg, Step(cfg, s, PayStart), PayArrive(sig))
        && var t := Step(cfg, Step(cfg, s, PayStart), PayArrive(sig));
           Enabled(cfg, t, PayReturn) && Step(cfg, t, PayReturn).lane.HasHeadroom())
  }

  /** What presenting the whole debt of an honest lane comes to. */
  lemma HonestPayment(cfg: Config, s: State, sig: Signature)
    requires Sound(cfg) && HonestInv(cfg, s) && s.mode.Idle? && s.lane.NextCumulative().Some?
    requires s.lane.cumulative + s.lane.owed <= MAX_CUMULATIVE
    ensures s.lane.NextCumulative().value == s.lane.cumulative + s.lane.owed
    ensures var reply := HandlePay(cfg, s.relay, s.lane.cumulative + s.lane.owed, sig).1;
            && (reply.NothingOwed? <==> Owed(cfg, s) == 0)
            && (reply.Credited? <==> s.lane.owed >= Last(cfg, s) - s.lane.cumulative + Floor(cfg))
  {
    var p := Step(cfg, s, PayStart);
    HonestStep(cfg, s, PayStart);
    AllWaiting(cfg.params, s.posts);
    NeverOverpaid(cfg, p, SumsOf(cfg.params, p.posts), sig);
  }

  /** One payment of an idle lane makes room exactly when it is credited or forgiven. */
  lemma PaymentMakesRoom(cfg: Config, s: State, sig: Signature)
    requires Sound(cfg) && s.lane.cap == cfg.cap && s.lane.params == cfg.params && NeverStuck(cfg.params, cfg.cap)
    requires s.mode.Idle? && s.lane.pending == 0 && !s.lane.HasHeadroom()
    requires s.lane.NextCumulative().Some? && s.lane.NextCumulative().value == s.lane.cumulative + s.lane.owed
    ensures var reply := HandlePay(cfg, s.relay, s.lane.cumulative + s.lane.owed, sig).1;
            GoesOn(cfg, s, sig) <==> reply.Credited? || reply.NothingOwed?
  {
    SettlingRestoresHeadroom(s.lane);
  }

  lemma IdleStateGoesOn(cfg: Config, s: State, sig: Signature)
    requires Sound(cfg) && HonestInv(cfg, s) && NeverStuck(cfg.params, cfg.cap)
    requires s.mode.Idle? && s.lane.pending == 0 && s.lane.cumulative + s.lane.owed <= MAX_CUMULATIVE
    ensures GoesOn(cfg, s, sig) <==>
              || s.lane.HasHeadroom()
              || Owed(cfg, s) == 0
              || s.lane.owed >= Last(cfg, s) - s.lane.cumulative + Floor(cfg)
  {
    if !s.lane.HasHeadroom() {
      NoDeadEnd(cfg.params, cfg.cap);
      assert s.lane == Lane(cfg.params, s.lane.owed, 0, s.lane.cumulative, cfg.cap);
      HonestPayment(cfg, s, sig);
      PaymentMakesRoom(cfg, s, sig);
    }
  }

  /** An honest lane with nothing in flight goes on if and only if it has room, or the
      relay is owed nothing, or its debt reaches the dust floor beyond the payments
      whose replies it has not heard. */
  lemma HonestIdleLaneGoesOn(cfg: Config, s0: State, es: seq<Event>, sig: Signature)
    requires Sound(cfg) && NeverStuck(cfg.params, cfg.cap)
    requires Started(cfg, s0) && Runs(cfg, s0, es) && AllHonest(es)
    requires var s := After(cfg, s0, es);
             s.mode.Idle? && s.posts == map[] && s.lane.cumulative + s.lane.owed <= MAX_CUMULATIVE
    ensures var s := After(cfg, s0, es);
            GoesOn(cfg, s, sig) <==>
              || s.lane.HasHeadroom()
              || Owed(cfg, s) == 0
              || s.lane.owed >= Last(cfg, s) - s.lane.cumulative + Floor(cfg)
  {
    StartedInv(cfg, s0);
    HonestRun(cfg, s0, es);
    NoPosts(cfg.params);
    IdleStateGoesOn(cfg, After(cfg, s0, es), sig);
  }

  /** A clean lane with nothing in flight is never stuck: it has room for a
      frame, or paying what it owes is accepted and makes room. */
  lemma IdleLaneGoesOn(cfg: Config, s0: State, es: seq<Event>, sig: Signature)
    requires Sound(cfg) && NeverStuck(cfg.params, cfg.cap)
    requires InAgreement(cfg, s0) && Runs(cfg, s0, es) && AllClean(es)
    requires var s := After(cfg, s0, es);
             s.mode.Idle? && s.posts == map[] && s.lane.cumulative + s.lane.owed <= MAX_CUMULATIVE
    ensures GoesOn(cfg, After(cfg, s0, es), sig)
  {
    CleanFromStart(cfg, s0, es);
    var s := After(cfg, s0, es);
    NoPosts(cfg.params);
    IdleStateGoesOn(cfg, s, sig);
    if !s.lane.HasHeadroom() {
      NoDeadEnd(cfg.params, cfg.cap);
      assert s.lane == Lane(cfg.params, s.lane.owed, 0, s.lane.cumulative, cfg.cap);
    }
  }

  // ---- Every run, whatever is lost -----------------------------------------

  /** The relay's own condition, on the figures of both sides. */
  lemma OverpaidWhen(cfg: Config, s: State, sig: Signature)
    requires Inv(cfg, s) && s.mode.Paying?
    ensures HandlePay(cfg, s.relay, s.mode.cheque, sig).1.Overpaid? <==>
              && Owed(cfg, s) > 0 && s.mode.cheque <= MAX_CUMULATIVE
              && s.lane.owed >= Last(cfg, s) - s.lane.cumulative + Floor(cfg)
              && s.lane.cumulative + s.lane.owed > Last(cfg, s) + Owed(cfg, s)
  {
    EffectiveOrdered(cfg.params, cfg.cap);
    CreditAccepts(s.relay, cfg.account, cfg.chequebook, s.mode.cheque, sig);
  }

  /** In any run a cheque overpays exactly when it is otherwise acceptable and what
      the steps of the run added to the skew outweighs what the client was behind
      at the start and the bodies it has yet to count. */
  lemma OverpaysByItsDrift(cfg: Config, s0: State, es: seq<Event>, sig: Signature)
    requires Sound(cfg) && Started(cfg, s0) && Runs(cfg, s0, es) && After(cfg, s0, es).mode.Paying?
    ensures var s := After(cfg, s0, es);
            var sums := SumsOf(cfg.params, s.posts);
            var behind := (Last(cfg, s0) + Owed(cfg, s0)) - (s0.lane.cumulative + s0.lane.owed);
            HandlePay(cfg, s.relay, s.mode.cheque, sig).1.Overpaid? <==>
              && Owed(cfg, s) > 0 && s.mode.cheque <= MAX_CUMULATIVE
              && s.lane.owed >= Last(cfg, s) - s.lane.cumulative + Floor(cfg)
              && RunDrift(cfg, s0, es) + sums.early > behind + sums.unanswered
  {
    StartedInv(cfg, s0);
    RunKeepsInv(cfg, s0, es);
    RunSkew(cfg, s0, es);
    OverpaidWhen(cfg, After(cfg, s0, es), sig);
  }

  // ---- Heard runs ----------------------------------------------------------

  /** Nothing is lost: no stream, request, reply or bill. */
  predicate Heard(e: Event) { !e.Break? && !e.Drop? && !e.Restart? && !e.Lost? }

  ghost predicate AllHeard(es: seq<Event>) { forall i :: 0 <= i < |es| ==> Heard(es[i]) }

  /** Heard, and the relay's figure is never taken over. */
  predicate Unaided(e: Event) { Heard(e) && !e.Represent? && !e.ReconcileDone? }

  ghost predicate AllUnaided(es: seq<Event>) { forall i :: 0 <= i < |es| ==> Unaided(es[i]) }

  /** What a step of such a run puts the client ahead by, all of it known to the
      client: the gap of an answer, less debt it forgave. */
  function Gap(cfg: Config, s: State, e: Event): int
    requires Enabled(cfg, s, e)
  {
    if e.Answer? then AnswerGap(cfg.params, s.posts[e.id])
    else if e.PayReturn? && s.mode.reply.NothingOwed? then 0 - s.lane.owed
    else 0
  }

  ghost function RunGap(cfg: Config, s: State, es: seq<Event>): int
    requires Runs(cfg, s, es)
    decreases |es|
  {
    if es == [] then 0 else Gap(cfg, s, es[0]) + RunGap(cfg, Step(cfg, s, es[0]), es[1..])
  }

  /** Every body is waited for, and the client knows of every cheque accepted. */
  ghost predicate HeardInv(cfg: Config, s: State) {
    && (forall id :: id in s.posts ==> s.posts[id].waiting)
    && s.late == {}
    && (if s.mode.Replied? && s.mode.reply.Credited? then Last(cfg, s) == s.mode.cheque
        else Last(cfg, s) == s.lane.cumulative)
  }

  lemma HeardPosts(cfg: Config, s: State, e: Event)
    requires Enabled(cfg, s, e) && Unaided(e) && HeardInv(cfg, s) && Moves(e)
    ensures HeardInv(cfg, Step(cfg, s, e)) && Drift(cfg, s, e) == Gap(cfg, s, e)
  {
  }

  lemma HeardTalk(cfg: Config, s: State, e: Event)
    requires Enabled(cfg, s, e) && Unaided(e) && HeardInv(cfg, s) && (Talk(e) || Cheque(e))
    requires cfg.chequebook in s.relay.binding ==> s.relay.binding[cfg.chequebook] == cfg.account
    ensures HeardInv(cfg, Step(cfg, s, e)) && Drift(cfg, s, e) == Gap(cfg, s, e)
  {
    if e.PayArrive? {
      PayHandled(cfg, s.relay, s.mode.cheque, e.signature);
    }
  }

  lemma {:induction false} HeardRun(cfg: Config, s: State, es: seq<Event>)
    requires Sound(cfg) && Inv(cfg, s) && HeardInv(cfg, s) && Runs(cfg, s, es) && AllUnaided(es)
    ensures HeardInv(cfg, After(cfg, s, es)) && RunDrift(cfg, s, es) == RunGap(cfg, s, es)
    decreases |es|
  {
    if es != [] {
      StepLaw(cfg, s, es[0]);
      if Moves(es[0]) {
        HeardPosts(cfg, s, es[0]);
      } else {
        HeardTalk(cfg, s, es[0]);
      }
      HeardRun(cfg, Step(cfg, s, es[0]), es[1..]);
    }
  }

  /** When everything is heard, the client is ahead of the relay by exactly the gaps of
      the answers it got, less what it forgave, both of which it can add up; and a
      plausible cheque is refused as an overpayment exactly when that passes the
      bodies booked but not yet answered, unless the relay is owed nothing. */
  lemma HeardRunsOverpayByTheirGaps(cfg: Config, s0: State, es: seq<Event>, sig: Signature)
    requires Sound(cfg) && InAgreement(cfg, s0) && Runs(cfg, s0, es) && AllUnaided(es)
    ensures var s := After(cfg, s0, es);
            var unanswered := Total(cfg.params, Unanswered, s.posts);
            && s.lane.cumulative + s.lane.owed + unanswered == Last(cfg, s) + Owed(cfg, s) + RunGap(cfg, s0, es)
            && (s.mode.Paying? ==>
                  (HandlePay(cfg, s.relay, s.mode.cheque, sig).1.Overpaid? <==>
                     Owed(cfg, s) > 0 && s.mode.cheque <= MAX_CUMULATIVE && RunGap(cfg, s0, es) > unanswered))
  {
    StartedInv(cfg, s0);
    RunKeepsInv(cfg, s0, es);
    RunSkew(cfg, s0, es);
    HeardRun(cfg, s0, es);
    var s := After(cfg, s0, es);
    AllWaiting(cfg.params, s.posts);
    if s.mode.Paying? {
      OverpaysByItsDrift(cfg, s0, es, sig);
    }
  }

  // ---- Corrections ---------------------------------------------------------

  lemma CorrectedCheque(cfg: Config, s: State, a: Sums, sig: Signature)
    requires Sound(cfg) && InvWith(cfg, s, a) && s.mode.Paying? && !s.mode.mayCorrect
    ensures var reply := HandlePay(cfg, s.relay, s.mode.cheque, sig).1;
            && (reply.Overpaid? ==> s.since.forfeited > 0)
            && (s.since.forfeited == 0 ==>
                  (reply.Credited? <==>
                     && s.mode.cheque <= MAX_CUMULATIVE
                     && s.lane.owed >= Last(cfg, s) - s.lane.cumulative + Floor(cfg)))
  {
    EffectiveOrdered(cfg.params, cfg.cap);
    CreditAccepts(s.relay, cfg.account, cfg.chequebook, s.mode.cheque, sig);
  }

  /** After an overpayment refusal and one corrected figure, the cheque presented
      again is never refused as an overpayment, whatever was lost, booked or paid
      late meanwhile, unless a restart forfeited bills after the figure was read.
      It is then credited exactly when the figure, less payments the client has
      not heard of, reaches the dust floor. */
  lemma CorrectionLands(cfg: Config, s0: State, es: seq<Event>, sig: Signature)
    requires Sound(cfg) && Started(cfg, s0) && Runs(cfg, s0, es)
    requires var m := After(cfg, s0, es).mode; m.Paying? && !m.mayCorrect
    ensures var s := After(cfg, s0, es);
            var reply := HandlePay(cfg, s.relay, s.mode.cheque, sig).1;
            && (reply.Overpaid? ==> s.since.forfeited > 0)
            && (s.since.forfeited == 0 ==>
                  (reply.Credited? <==>
                     && s.mode.cheque <= MAX_CUMULATIVE
                     && s.lane.owed >= Last(cfg, s) - s.lane.cumulative + Floor(cfg)))
  {
    StartedInv(cfg, s0);
    RunKeepsInv(cfg, s0, es);
    var s := After(cfg, s0, es);
    CorrectedCheque(cfg, s, SumsOf(cfg.params, s.posts), sig);
  }

  /** Whether the settlement under way may still ask for the relay's figure. */
  predicate MayAsk(m: Mode) {
    (m.Paying? && m.mayCorrect) || (m.Replied? && m.mayCorrect) || m.Correcting?
  }

  function Begun(es: seq<Event>): nat {
    if es == [] then 0 else (if es[0].PayStart? then 1 else 0) + Begun(es[1..])
  }

  function Asked(es: seq<Event>): nat {
    if es == [] then 0 else (if es[0].AskOwed? then 1 else 0) + Asked(es[1..])
  }

  lemma {:induction false} AskingRun(cfg: Config, s: State, es: seq<Event>)
    requires Runs(cfg, s, es)
    ensures var t := After(cfg, s, es);
            Asked(es) + (if MayAsk(t.mode) then 1 else 0) <= Begun(es) + (if MayAsk(s.mode) then 1 else 0)
    decreases |es|
  {
    if es != [] {
      AskingRun(cfg, Step(cfg, s, es[0]), es[1..]);
    }
  }

  /** A settlement corrects itself at most once: no run asks for the relay's figure
      more often than it began to settle, however often it is refused, and one that
      has asked and is refused again gives up. */
  lemma CorrectsOnce(cfg: Config, s0: State, es: seq<Event>)
    requires Started(cfg, s0) && Runs(cfg, s0, es)
    ensures Asked(es) <= Begun(es)
    ensures var s := After(cfg, s0, es);
            && (MayAsk(s.mode) ==> Asked(es) < Begun(es))
            && (s.mode.Replied? && !s.mode.mayCorrect ==> Step(cfg, s, PayReturn).mode.Idle?)
  {
    AskingRun(cfg, s0, es);
  }

  /** Adopting a reading taken at or before now, in any run: the debt only rises, and
      if it does, what the client then owes plus everything it still has in flight
      stays within the relay's debt and whatever lowered that debt since the
      reading, so no body is counted twice; and it comes to at least the reading,
      so none is left out. A reading past the ceiling or the balance changes
      nothing. The line plays no part: debt above it is adopted too. */
  lemma AdoptionNeverDoubleCounts(cfg: Config, s0: State, es: seq<Event>)
    requires Sound(cfg) && Started(cfg, s0) && Runs(cfg, s0, es) && After(cfg, s0, es).mode.Reconciling?
    ensures var s := After(cfg, s0, es);
            var t := Step(cfg, s, ReconcileDone);
            var lowered := t.since.credited + t.since.forfeited;
            && s.lane.owed <= t.lane.owed
            && (if s.mode.reading <= cfg.params.maxOutstanding && s.mode.reading <= cfg.balance
                then t.lane.owed + t.lane.pending >= s.mode.reading else t.lane == s.lane)
            && (t.lane.owed > s.lane.owed ==>
                  && t.lane.owed + Total(cfg.params, Waiting, t.posts) <= Owed(cfg, t) + lowered
                  && t.lane.owed + Total(cfg.params, Unanswered, t.posts) <= Owed(cfg, t) + lowered)
  {
    StartedInv(cfg, s0);
    RunKeepsInv(cfg, s0, es);
    var s := After(cfg, s0, es);
    StepLaw(cfg, s, ReconcileDone);
    SumsOrdered(cfg.params, s.posts);
  }

  /** A reconciliation not interrupted leaves the client counting all the debt the relay
      carries, if its chequebook covers it: debt of an earlier session is found. */
  lemma ReconciliationFindsDebt(cfg: Config, s0: State, es: seq<Event>)
    requires Sound(cfg) && Started(cfg, s0) && Runs(cfg, s0, es)
    requires After(cfg, s0, es).mode.Idle? && Owed(cfg, After(cfg, s0, es)) <= cfg.balance
    ensures var s := After(cfg, s0, es);
            && Enabled(cfg, s, ReconcileAsk) && Enabled(cfg, Step(cfg, s, ReconcileAsk), ReconcileDone)
            && var t := Step(cfg, Step(cfg, s, ReconcileAsk), ReconcileDone);
               t.mode.Idle? && t.lane.owed + t.lane.pending >= Owed(cfg, t) == Owed(cfg, s)
  {
    StartedInv(cfg, s0);
    RunKeepsInv(cfg, s0, es);
  }

  // ---- What a restart forgets ------------------------------------------------

  /** Bills the relay has not written down, after one more step. Writing is of the
      whole ledger, so any write clears them. */
  function UnsavedAfter(cfg: Config, s: State, e: Event, sofar: nat): nat
    requires Enabled(cfg, s, e)
  {
    if e.Restart? || (e.Book? && e.saved) || (e.Elsewhere? && e.saved) then 0
    else if e.PayArrive? && HandlePay(cfg, s.relay, s.mode.cheque, e.signature).1.Credited? then 0
    else if e.LateArrive? && HandlePay(cfg, s.relay, e.cheque, e.signature).1.Credited? then 0
    else if e.Book? then sofar + Price(cfg.params, s.posts[e.id].bytes - e.dedup - e.rejected)
    else sofar
  }

  ghost function UnsavedTo(cfg: Config, s: State, es: seq<Event>, sofar: nat): nat
    requires Runs(cfg, s, es)
    decreases |es|
  {
    if es == [] then sofar
    else UnsavedTo(cfg, Step(cfg, s, es[0]), es[1..], UnsavedAfter(cfg, s, es[0], sofar))
  }

  lemma UnsavedPost(cfg: Config, s: State, e: Event, a: Sums, sofar: nat)
    requires Sound(cfg) && InvWith(cfg, s, a) && Enabled(cfg, s, e) && Moves(e)
    requires e.Book? ==> Contains(cfg.params, a, s.posts[e.id])
    requires Owed(cfg, s) == s.durable + sofar
    ensures Owed(cfg, Step(cfg, s, e)) == Step(cfg, s, e).durable + UnsavedAfter(cfg, s, e, sofar)
  {
    if e.Book? {
      BookBills(cfg, s, e, a);
    } else if e.Arrive? {
      ReserveMoves(s.relay, cfg.account, Price(cfg.params, s.posts[e.id].bytes), cfg.cap, cfg.account);
    } else if e.Refuse? || e.Drop? {
      ReleaseMoves(s.relay, cfg.account, Price(cfg.params, s.posts[e.id].bytes), cfg.account);
    }
  }

  lemma UnsavedTalk(cfg: Config, s: State, e: Event, sofar: nat)
    requires Inv(cfg, s) && Enabled(cfg, s, e) && !Moves(e) && Owed(cfg, s) == s.durable + sofar
    ensures Owed(cfg, Step(cfg, s, e)) == Step(cfg, s, e).durable + UnsavedAfter(cfg, s, e, sofar)
  {
    if e.PayArrive? {
      PayHandled(cfg, s.relay, s.mode.cheque, e.signature);
    } else if e.LateArrive? {
      PayHandled(cfg, s.relay, e.cheque, e.signature);
    }
  }

  lemma {:induction false} UnsavedRun(cfg: Config, s: State, es: seq<Event>, sofar: nat)
    requires Sound(cfg) && Inv(cfg, s) && Runs(cfg, s, es) && Owed(cfg, s) == s.durable + sofar
    ensures var t := After(cfg, s, es); Owed(cfg, t) == t.durable + UnsavedTo(cfg, s, es, sofar)
    decreases |es|
  {
    if es != [] {
      StepLaw(cfg, s, es[0]);
      if Moves(es[0]) {
        TouchedShift(cfg, s, es[0]);
        UnsavedPost(cfg, s, es[0], SumsOf(cfg.params, s.posts), sofar);
      } else {
        UnsavedTalk(cfg, s, es[0], sofar);
      }
      UnsavedRun(cfg, Step(cfg, s, es[0]), es[1..], UnsavedAfter(cfg, s, es[0], sofar));
    }
  }

  /** A restart at any point of any run forgets exactly the bills since the relay last
      wrote its ledger, with what it had not written at the start. */
  lemma RestartForgetsUnsaved(cfg: Config, s0: State, es: seq<Event>)
    requires Sound(cfg) && Started(cfg, s0) && Runs(cfg, s0, es)
    ensures var s := After(cfg, s0, es);
            var t := Step(cfg, s, Restart);
            var unsaved := UnsavedTo(cfg, s0, es, Owed(cfg, s0) - s0.durable);
            && Owed(cfg, t) + unsaved == Owed(cfg, s) && Last(cfg, t) == Last(cfg, s)
            && t.since.forfeited == s.since.forfeited + unsaved
            && t.relay.Reserved(cfg.account) == 0
  {
    StartedInv(cfg, s0);
    UnsavedRun(cfg, s0, es, Owed(cfg, s0) - s0.durable);
  }

  function Losses(es: seq<Event>): nat {
    if es == [] then 0 else (if es[0].Lost? then 1 else 0) + Losses(es[1..])
  }

  function LateArrivals(es: seq<Event>): nat {
    if es == [] then 0 else (if es[0].LateArrive? then 1 else 0) + LateArrivals(es[1..])
  }

  /** A payment whose exchange was lost arrives at most once: a run has no more late
      arrivals than losses, and what may still arrive makes up no more than the rest. */
  lemma {:induction false} LostChequesArriveOnce(cfg: Config, s: State, es: seq<Event>)
    requires Runs(cfg, s, es)
    ensures LateArrivals(es) + |After(cfg, s, es).late| <= Losses(es) + |s.late|
    decreases |es|
  {
    if es != [] {
      LostChequesArriveOnce(cfg, Step(cfg, s, es[0]), es[1..]);
    }
  }

  // ---- Putting runs together -----------------------------------------------

  /** When the client settles of its own accord: the window is reached, or debt
      leaves no room for a frame. */
  predicate Due(l: Lane) { l.ShouldSettle() || (!l.HasHeadroom() && l.owed > 0) }

  /** The client pays only when it would. */
  ghost predicate Driven(cfg: Config, s: State, es: seq<Event>)
    requires Runs(cfg, s, es)
    decreases |es|
  {
    es == [] || ((es[0].PayStart? ==> Due(s.lane)) && Driven(cfg, Step(cfg, s, es[0]), es[1..]))
  }

  lemma {:induction false} Join(cfg: Config, s: State, es: seq<Event>, fs: seq<Event>)
    requires Runs(cfg, s, es) && Runs(cfg, After(cfg, s, es), fs)
    ensures Runs(cfg, s, es + fs) && After(cfg, s, es + fs) == After(cfg, After(cfg, s, es), fs)
    ensures Driven(cfg, s, es) && Driven(cfg, After(cfg, s, es), fs) ==> Driven(cfg, s, es + fs)
    decreases |es|
  {
    if es == [] {
      assert es + fs == fs;
    } else {
      Join(cfg, Step(cfg, s, es[0]), es[1..], fs);
      assert (es + fs)[1..] == es[1..] + fs;
    }
  }

  lemma One(cfg: Config, s: State, e: Event)
    requires Enabled(cfg, s, e)
    ensures Runs(cfg, s, [e]) && After(cfg, s, [e]) == Step(cfg, s, e)
    ensures (e.PayStart? ==> Due(s.lane)) ==> Driven(cfg, s, [e])
  {
    assert [e][1..] == [];
    assert Runs(cfg, Step(cfg, s, e), []);
  }

  lemma Two(cfg: Config, s: State, e: Event, f: Event)
    requires Enabled(cfg, s, e) && Enabled(cfg, Step(cfg, s, e), f) && !f.PayStart?
    ensures Runs(cfg, s, [e, f]) && After(cfg, s, [e, f]) == Step(cfg, Step(cfg, s, e), f)
    ensures (e.PayStart? ==> Due(s.lane)) ==> Driven(cfg, s, [e, f])
  {
    One(cfg, s, e);
    One(cfg, Step(cfg, s, e), f);
    Join(cfg, s, [e], [f]);
    assert [e] + [f] == [e, f];
  }

  lemma Three(cfg: Config, s: State, e: Event, f: Event, g: Event)
    requires Enabled(cfg, s, e) && Enabled(cfg, Step(cfg, s, e), f) && !f.PayStart?
    requires Enabled(cfg, Step(cfg, Step(cfg, s, e), f), g) && !g.PayStart?
    ensures Runs(cfg, s, [e, f, g]) && After(cfg, s, [e, f, g]) == Step(cfg, Step(cfg, Step(cfg, s, e), f), g)
    ensures (e.PayStart? ==> Due(s.lane)) ==> Driven(cfg, s, [e, f, g])
  {
    Two(cfg, s, e, f);
    One(cfg, Step(cfg, Step(cfg, s, e), f), g);
    Join(cfg, s, [e, f], [g]);
    assert [e, f] + [g] == [e, f, g];
  }

  /** Two steps and two more, none of them a payment started. */
  lemma TwoAndTwo(cfg: Config, s: State, es: seq<Event>, t: State, fs: seq<Event>, u: State)
    requires |es| == 2 && !es[0].PayStart? && !es[1].PayStart? && |fs| == 2 && !fs[0].PayStart? && !fs[1].PayStart?
    requires Enabled(cfg, s, es[0]) && Enabled(cfg, Step(cfg, s, es[0]), es[1])
    requires t == Step(cfg, Step(cfg, s, es[0]), es[1])
    requires Enabled(cfg, t, fs[0]) && Enabled(cfg, Step(cfg, t, fs[0]), fs[1])
    requires u == Step(cfg, Step(cfg, t, fs[0]), fs[1])
    ensures Runs(cfg, s, es + fs) && After(cfg, s, es + fs) == u && Driven(cfg, s, es + fs)
  {
    assert es == [es[0], es[1]] && fs == [fs[0], fs[1]];
    Two(cfg, s, es[0], es[1]);
    Two(cfg, t, fs[0], fs[1]);
    Join(cfg, s, es, fs);
  }

  // ---- Where the assumptions matter ----------------------------------------

  /** A line of eight, settled at four, on which a frame costs five. */
  const TIGHT := Config(Params(1, 1, 4, 100, 1), 8, Address([0]), Address([1]), 100)

  const FRESH := State(Lane(TIGHT.params, 0, 0, 0, 8), Books(map[], map[]), 0, map[], Idle, {}, Since(0, 0))

  /** A quiet lane: nothing in flight, nothing awaited, nothing reserved. */
  predicate Quiet(s: State, owed: nat, relayOwed: nat, last: nat) {
    && s.lane == Lane(TIGHT.params, owed, 0, 0, 8)
    && Owed(TIGHT, s) == relayOwed && Last(TIGHT, s) == last
    && s.relay.Reserved(TIGHT.account) == 0
    && (TIGHT.chequebook in s.relay.binding ==> s.relay.binding[TIGHT.chequebook] == TIGHT.account)
    && s.posts == map[] && s.mode.Idle?
  }

  /** A body on its way into the relay's hands. */
  lemma BodyArrives(s: State, id: nat, kib: nat, owed: nat, relayOwed: nat, last: nat) returns (t: State)
    requires Quiet(s, owed, relayOwed, last) && owed + kib <= 8 && relayOwed + kib <= 8
    ensures Enabled(TIGHT, s, Dispatch(id, kib * 1024))
    ensures Enabled(TIGHT, Step(TIGHT, s, Dispatch(id, kib * 1024)), Arrive(id))
    ensures t == Step(TIGHT, Step(TIGHT, s, Dispatch(id, kib * 1024)), Arrive(id))
    ensures InHand(t, id, kib, owed, relayOwed, last) && t.durable == s.durable
  {
    assert Price(TIGHT.params, kib * 1024) == kib;
    t := Step(TIGHT, Step(TIGHT, s, Dispatch(id, kib * 1024)), Arrive(id));
  }

  predicate InHand(s: State, id: nat, kib: nat, owed: nat, relayOwed: nat, last: nat) {
    && s.lane == Lane(TIGHT.params, owed, kib, 0, 8)
    && Owed(TIGHT, s) == relayOwed && Last(TIGHT, s) == last
    && s.relay.Reserved(TIGHT.account) == kib
    && (TIGHT.chequebook in s.relay.binding ==> s.relay.binding[TIGHT.chequebook] == TIGHT.account)
    && s.posts == map[id := Post(kib * 1024, Admitted, true, 0)] && s.mode.Idle?
  }

  lemma BodyHeard(t: State, id: nat, kib: nat, rejected: nat, saved: bool, owed: nat, relayOwed: nat, last: nat)
    returns (u: State)
    requires InHand(t, id, kib, owed, relayOwed, last) && rejected <= kib && owed + kib <= 8 && relayOwed + kib <= 8
    ensures Enabled(TIGHT, t, Book(id, 0, rejected * 1024, saved))
    ensures Enabled(TIGHT, Step(TIGHT, t, Book(id, 0, rejected * 1024, saved)), Answer(id))
    ensures u == Step(TIGHT, Step(TIGHT, t, Book(id, 0, rejected * 1024, saved)), Answer(id))
    ensures Quiet(u, owed + kib, relayOwed + kib - rejected, last)
    ensures u.durable == if saved then Owed(TIGHT, u) else t.durable
  {
    assert Price(TIGHT.params, kib * 1024) == kib;
    assert Price(TIGHT.params, kib * 1024 - rejected * 1024) == kib - rejected;
    u := Step(TIGHT, Step(TIGHT, t, Book(id, 0, rejected * 1024, saved)), Answer(id));
    assert u.posts == map[];
  }

  /** One body sent, booked less its rejected frames, and heard of. */
  lemma PostOneBody(s: State, id: nat, kib: nat, rejected: nat, saved: bool, owed: nat, relayOwed: nat, last: nat)
    returns (es: seq<Event>)
    requires Quiet(s, owed, relayOwed, last) && rejected <= kib && owed + kib <= 8 && relayOwed + kib <= 8
    ensures Runs(TIGHT, s, es) && Driven(TIGHT, s, es) && AllUnaided(es) && (rejected == 0 ==> AllHonest(es))
    ensures var t := After(TIGHT, s, es);
            && Quiet(t, owed + kib, relayOwed + kib - rejected, last)
            && t.durable == (if saved then Owed(TIGHT, t) else s.durable)
  {
    var sent, heard := [Dispatch(id, kib * 1024), Arrive(id)], [Book(id, 0, rejected * 1024, saved), Answer(id)];
    var t := BodyArrives(s, id, kib, owed, relayOwed, last);
    var u := BodyHeard(t, id, kib, rejected, saved, owed, relayOwed, last);
    TwoAndTwo(TIGHT, s, sent, t, heard, u);
    es := sent + heard;
  }

  /** Rejected frames are why honesty asks for none: every outcome is heard, and
      still the client counts bytes the relay does not bill, so the payment it
      makes when due is refused as an overpayment. The relay's last bill, of one,
      does not reach its disk. */
  lemma RejectedFramesOverpay(sig: Signature) returns (es: seq<Event>)
    ensures Sound(TIGHT) && InAgreement(TIGHT, FRESH) && Runs(TIGHT, FRESH, es) && Driven(TIGHT, FRESH, es)
    ensures AllUnaided(es)
    ensures var s := After(TIGHT, FRESH, es);
            && s.mode == Paying(4, true) && Quiet(s.(mode := Idle), 4, 3, 0) && s.durable == 2
            && HandlePay(TIGHT, s.relay, s.mode.cheque, sig).1.Overpaid?
  {
    var es1 := PostOneBody(FRESH, 0, 1, 1, true, 0, 0, 0);
    var s1 := After(TIGHT, FRESH, es1);
    var es2 := PostOneBody(s1, 1, 2, 0, true, 1, 0, 0);
    var s2 := After(TIGHT, s1, es2);
    var es3 := PostOneBody(s2, 2, 1, 0, false, 3, 2, 0);
    PayOnceDue(After(TIGHT, s2, es3), sig);
    Join(TIGHT, s2, es3, [PayStart]);
    Join(TIGHT, s1, es2, es3 + [PayStart]);
    Join(TIGHT, FRESH, es1, es2 + (es3 + [PayStart]));
    es := es1 + (es2 + (es3 + [PayStart]));
  }

  lemma PayOnceDue(s: State, sig: Signature)
    requires Quiet(s, 4, 3, 0)
    ensures Runs(TIGHT, s, [PayStart]) && Driven(TIGHT, s, [PayStart])
    ensures After(TIGHT, s, [PayStart]) == s.(mode := Paying(4, true))
    ensures HandlePay(TIGHT, s.relay, 4, sig).1.Overpaid?
  {
    assert Floor(TIGHT) == 1 && s.lane.Thresholds().settleEvery == 4;
    One(TIGHT, s, PayStart);
  }

  /** A restart is the one thing that undoes a correction: the unsaved bill of the last
      body, forfeited after the figure was read, makes the corrected cheque an
      overpayment too. */
  lemma RestartUndoesCorrection(sig: Signature) returns (es: seq<Event>)
    ensures Sound(TIGHT) && InAgreement(TIGHT, FRESH) && Runs(TIGHT, FRESH, es)
    ensures var s := After(TIGHT, FRESH, es);
            && s.mode == Paying(3, false) && s.since == Since(0, 1)
            && HandlePay(TIGHT, s.relay, s.mode.cheque, sig).1.Overpaid?
  {
    var es1 := RejectedFramesOverpay(sig);
    var s1 := After(TIGHT, FRESH, es1);
    assert Floor(TIGHT) == 1;
    Three(TIGHT, s1, PayArrive(sig), PayReturn, AskOwed);
    var refused := [PayArrive(sig), PayReturn, AskOwed];
    var s2 := After(TIGHT, s1, refused);
    Two(TIGHT, s2, Restart, Represent);
    Join(TIGHT, s1, refused, [Restart, Represent]);
    Join(TIGHT, FRESH, es1, refused + [Restart, Represent]);
    es := es1 + (refused + [Restart, Represent]);
  }

  // ---- A lost payment reply ------------------------------------------------

  /** A due payment is accepted and its reply lost: the relay is paid, the client has
      not heard. */
  lemma PayAndLoseReply(s: State, owed: nat, sig: Signature) returns (es: seq<Event>)
    requires 4 <= owed <= 8 && Quiet(s, owed, owed, 0)
    ensures Runs(TIGHT, s, es) && Driven(TIGHT, s, es) && AllHonest(es)
    ensures Quiet(After(TIGHT, s, es), owed, 0, owed)
  {
    assert Floor(TIGHT) == 1 && s.lane.Thresholds().settleEvery == 4;
    PayHandled(TIGHT, s.relay, owed, sig);
    CreditAccepts(s.relay, TIGHT.account, TIGHT.chequebook, owed, sig);
    es := [PayStart, PayArrive(sig), Lost];
    Three(TIGHT, s, PayStart, PayArrive(sig), Lost);
  }

  /** A due payment the client gives up on can be credited all the same, leaving both
      sides as a lost reply does. */
  lemma PayAndArriveLate(s: State, owed: nat, sig: Signature) returns (es: seq<Event>)
    requires 4 <= owed <= 8 && Quiet(s, owed, owed, 0)
    ensures Runs(TIGHT, s, es) && Driven(TIGHT, s, es) && AllHonest(es)
    ensures Quiet(After(TIGHT, s, es), owed, 0, owed)
    ensures After(TIGHT, s, es).since.credited == s.since.credited + owed
  {
    assert Floor(TIGHT) == 1 && s.lane.Thresholds().settleEvery == 4;
    PayHandled(TIGHT, s.relay, owed, sig);
    CreditAccepts(s.relay, TIGHT.account, TIGHT.chequebook, owed, sig);
    es := [PayStart, Lost, LateArrive(owed, sig)];
    Three(TIGHT, s, PayStart, Lost, LateArrive(owed, sig));
  }

  /** With no room for a frame the client pays again, and the debt the relay has
      already been paid is forgiven as phantom, though the cumulative it was paid
      under is not the client's. */
  lemma ForgivePhantom(s: State, owed: nat, last: nat, sig: Signature) returns (es: seq<Event>)
    requires 4 <= owed <= 8 && Quiet(s, owed, 0, last)
    ensures Runs(TIGHT, s, es) && Driven(TIGHT, s, es) && AllHonest(es)
    ensures Quiet(After(TIGHT, s, es), 0, 0, last)
  {
    assert Floor(TIGHT) == 1 && !s.lane.HasHeadroom();
    es := [PayStart, PayArrive(sig), PayReturn];
    Three(TIGHT, s, PayStart, PayArrive(sig), PayReturn);
  }

  /** A lost payment reply can jam an honest lane for good. After the forgiveness the
      client's cumulative lags the relay's, so a debt both sides agree on is due,
      leaves no room for a frame, and is refused as stale however often it is
      presented: the condition under which an honest cheque is credited is the
      best possible. */
  lemma LostReplyCanJam(sig: Signature) returns (es: seq<Event>)
    ensures Sound(TIGHT) && InAgreement(TIGHT, FRESH) && Runs(TIGHT, FRESH, es)
    ensures Driven(TIGHT, FRESH, es) && AllHonest(es)
    ensures var s := After(TIGHT, FRESH, es);
            && Quiet(s, 4, 4, 4) && s.lane.ShouldSettle() && !s.lane.HasHeadroom()
            && Runs(TIGHT, s, [PayStart, PayArrive(sig), PayReturn])
            && HandlePay(TIGHT, s.relay, 4, sig).1.Stale?
            && After(TIGHT, s, [PayStart, PayArrive(sig), PayReturn]) == s
  {
    var es1 := PostOneBody(FRESH, 0, 4, 0, true, 0, 0, 0);
    var s1 := After(TIGHT, FRESH, es1);
    var es2 := PayAndLoseReply(s1, 4, sig);
    var s2 := After(TIGHT, s1, es2);
    var es3 := ForgivePhantom(s2, 4, 4, sig);
    var s3 := After(TIGHT, s2, es3);
    var es4 := PostOneBody(s3, 1, 4, 0, true, 0, 0, 4);
    Join(TIGHT, s2, es3, es4);
    Join(TIGHT, s1, es2, es3 + es4);
    Join(TIGHT, FRESH, es1, es2 + (es3 + es4));
    es := es1 + (es2 + (es3 + es4));
    StaleForGood(After(TIGHT, FRESH, es), sig);
  }

  lemma StaleForGood(s: State, sig: Signature)
    requires Quiet(s, 4, 4, 4)
    ensures s.lane.ShouldSettle() && !s.lane.HasHeadroom()
    ensures Runs(TIGHT, s, [PayStart, PayArrive(sig), PayReturn])
    ensures HandlePay(TIGHT, s.relay, 4, sig).1.Stale?
    ensures After(TIGHT, s, [PayStart, PayArrive(sig), PayReturn]) == s
  {
    assert Floor(TIGHT) == 1 && s.lane.Thresholds().settleEvery == 4;
    Three(TIGHT, s, PayStart, PayArrive(sig), PayReturn);
  }
}
