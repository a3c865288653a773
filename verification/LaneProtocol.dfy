/** One metered lane end to end: the client's account and the relay's ledger
    advance by separate steps and never exchange totals. POSTs interleave freely,
    relay steps go on while the client waits for a reply, streams, requests and
    replies can be lost, payments can arrive after the client gave up on them, and
    the relay can restart at any point. */
module LaneProtocol {
  import opened Arith
  import opened MapSums
  import opened Meter
  import opened Ledgers
  import opened Payer

  datatype Config = Config(params: Params, cap: nat, account: Address, chequebook: Address, balance: nat)

  /** A validated quote, a line within its ceiling, and amounts within 128 bits. */
  predicate Sound(cfg: Config) {
    && Valid(cfg.params)
    && 0 < cfg.cap <= cfg.params.maxOutstanding
    && 4 * cfg.params.maxOutstanding + MAX_CUMULATIVE < U128_MAX
  }

  /** Where the relay is with a POST. `Refusing` still holds the over-cap
      reservation. `Booked` bills all but the bytes answered from the recent-ack
      cache and the bytes of frames it rejected. */
  datatype Stage = OnWire | Admitted | Refusing | Refused | Booked(dedup: nat, rejected: nat) | Dropped

  /** `waiting` while the client still counts the body as in flight; afterwards
      `seen` is what it had heard to be deduplicated and gave itself back. */
  datatype Post = Post(bytes: nat, stage: Stage, waiting: bool, seen: nat)

  function Billed(x: Post): nat
    requires x.stage.Booked?
  {
    SatSub(x.bytes, x.stage.dedup + x.stage.rejected)
  }

  datatype Reply = Credited(delta: nat) | NothingOwed | Implausible | Stale | Dust | Overpaid | Foreign

  /** What the client is awaiting. It handles no other event meanwhile. */
  datatype Mode =
    | Idle
    | Paying(cheque: nat, mayCorrect: bool)
    | Replied(cheque: nat, mayCorrect: bool, reply: Reply)
    | Correcting
    | Corrected(reading: nat)
    | Reconciling(reading: nat)

  /** What lowered the relay's debt since the client last read it, besides the
      payment it is awaiting: cheques it had given up on, and restarts. */
  datatype Since = Since(credited: nat, forfeited: nat)

  /** `durable` is the debt the relay has on disk, which is all it remembers of it
      after a restart. `late` are the cheques on the way that the client no longer
      waits for. `since` records the run and is never read by it. */
  datatype State = State(lane: Lane, relay: Books, durable: nat, posts: map<nat, Post>, mode: Mode,
                         late: set<nat>, since: Since)

  datatype Event =
    // the client
    | Dispatch(id: nat, bytes: nat)
    | Answer(id: nat)
    | Break(id: nat, seen: nat)
    | PayStart
    | PayReturn
    | Represent
    | ReconcileAsk
    | ReconcileDone
    | Lost
    // the relay
    | Deny(id: nat)
    | Arrive(id: nat)
    | Refuse(id: nat)
    | Book(id: nat, dedup: nat, rejected: nat, saved: bool)
    | Drop(id: nat)
    | PayArrive(signature: Signature)
    | AskOwed
    | LateArrive(cheque: nat, signature: Signature)
    | Restart
    | Elsewhere(relay: Books, saved: bool)

  function Owed(cfg: Config, s: State): nat { s.relay.Owed(cfg.account) }

  function Last(cfg: Config, s: State): nat { s.relay.LastCumulative(cfg.account, cfg.chequebook) }

  function Floor(cfg: Config): nat { Effective(cfg.params, cfg.cap).minCheque }

  /** The relay's payment endpoint, past its checks on the chain. */
  function HandlePay(cfg: Config, relay: Books, c: nat, sig: Signature): (Books, Reply) {
    var have := relay.LastCumulative(cfg.account, cfg.chequebook);
    if relay.Owed(cfg.account) == 0 then (relay, NothingOwed)
    else if c > MAX_CUMULATIVE then (relay, Implausible)
    else if c <= have then (relay, Stale)
    else if c - have < Floor(cfg) then (relay, Dust)
    else
      var (after, r) := relay.Credit(cfg.account, cfg.chequebook, c, sig);
      (after,
       match r
       case Ok(delta) => Credited(delta)
       case Err(Overpayment(_, _)) => Overpaid
       case Err(_) => Foreign)
  }

  /** A POST the client no longer waits for leaves the model once the relay is done with it. */
  function Advance(posts: map<nat, Post>, id: nat, post: Post): map<nat, Post> {
    if !post.waiting && (post.stage.Refused? || post.stage.Booked? || post.stage.Dropped?)
    then posts - {id}
    else posts[id := post]
  }

  /** The most a client can have heard to be deduplicated: acks are streamed while
      the relay still validates, before it books. */
  function Acked(x: Post): nat {
    if x.stage.Admitted? || x.stage.Dropped? then x.bytes else if x.stage.Booked? then x.stage.dedup else 0
  }

  /** A restart ends the requests the relay was reading. */
  function Severed(posts: map<nat, Post>): map<nat, Post> {
    map id | id in posts :: if posts[id].stage.Admitted? || posts[id].stage.Refusing?
                            then posts[id].(stage := Dropped) else posts[id]
  }

  predicate Enabled(cfg: Config, s: State, e: Event) {
    match e
    case Dispatch(id, bytes) => s.mode.Idle? && id !in s.posts && !s.lane.WouldExceed(bytes)
    case Answer(id) =>
      s.mode.Idle? && id in s.posts && s.posts[id].waiting && (s.posts[id].stage.Refused? || s.posts[id].stage.Booked?)
    case Break(id, seen) => s.mode.Idle? && id in s.posts && s.posts[id].waiting && seen <= Acked(s.posts[id])
    case PayStart => s.mode.Idle? && s.lane.NextCumulative().Some?
    case PayReturn => s.mode.Replied?
    case Represent => s.mode.Corrected?
    case ReconcileAsk => s.mode.Idle?
    case ReconcileDone => s.mode.Reconciling?
    case Lost => !s.mode.Idle?
    case Deny(id) => id in s.posts && s.posts[id].stage.OnWire?
    case Arrive(id) =>
      && id in s.posts && s.posts[id].stage.OnWire?
      && Owed(cfg, s) + s.relay.Reserved(cfg.account) + Price(cfg.params, s.posts[id].bytes) <= U128_MAX
    case Refuse(id) => id in s.posts && s.posts[id].stage.Refusing?
    case Book(id, dedup, rejected, _) =>
      id in s.posts && s.posts[id].stage.Admitted? && s.posts[id].seen <= dedup && dedup + rejected <= s.posts[id].bytes
    case Drop(id) => id in s.posts && (s.posts[id].stage.OnWire? || s.posts[id].stage.Admitted?)
    case PayArrive(_) => s.mode.Paying?
    case AskOwed => s.mode.Correcting?
    case LateArrive(c, _) => c in s.late
    case Restart => true
    case Elsewhere(relay, _) =>
      && relay.Get(cfg.account) == s.relay.Get(cfg.account)
      && (cfg.chequebook in relay.binding ==> relay.binding[cfg.chequebook] == cfg.account)
  }

  function Step(cfg: Config, s: State, e: Event): State
    requires Enabled(cfg, s, e)
  {
    match e
    case Dispatch(id, bytes) =>
      s.(lane := s.lane.RecordSent(bytes), posts := s.posts[id := Post(bytes, OnWire, true, 0)])
    case Answer(id) =>
      var x := s.posts[id];
      var lane := s.lane.RecordAnswered(x.bytes, x.stage.Booked?);
      s.(lane := if x.stage.Booked? then lane.RefundDedup(x.stage.dedup) else lane, posts := s.posts - {id})
    case Break(id, seen) =>
      var x := s.posts[id];
      s.(lane := s.lane.RecordAnswered(x.bytes, true).RefundDedup(seen),
         posts := Advance(s.posts, id, x.(waiting := false, seen := seen)))
    case PayStart => s.(mode := Paying(s.lane.NextCumulative().value, true))
    case PayReturn =>
      if s.mode.reply.Credited? then s.(lane := s.lane.Settled(s.mode.cheque), mode := Idle)
      else if s.mode.reply.NothingOwed? then s.(lane := s.lane.ForgivePhantomDebt(), mode := Idle)
      else if s.mode.reply.Overpaid? && s.mode.mayCorrect then s.(mode := Correcting)
      else s.(mode := Idle)
    case Represent =>
      var lane := s.lane.SyncRelayDebt(s.mode.reading);
      s.(lane := lane,
         mode := match lane.NextCumulative() case None => Idle case Some(c) => Paying(c, false))
    case ReconcileAsk => s.(mode := Reconciling(Owed(cfg, s)), since := Since(0, 0))
    case ReconcileDone =>
      var v := s.mode.reading;
      s.(lane := if v <= cfg.params.maxOutstanding && v <= cfg.balance then s.lane.AdoptRelayDebt(v) else s.lane,
         mode := Idle)
    case Lost => s.(mode := Idle, late := if s.mode.Paying? then s.late + {s.mode.cheque} else s.late)
    case Deny(id) => s.(posts := Advance(s.posts, id, s.posts[id].(stage := Refused)))
    case Arrive(id) =>
      var x := s.posts[id];
      var (relay, adm) := s.relay.Reserve(cfg.account, Price(cfg.params, x.bytes), cfg.cap);
      s.(relay := relay, posts := s.posts[id := x.(stage := if adm.overCap then Refusing else Admitted)])
    case Refuse(id) =>
      var x := s.posts[id];
      s.(relay := s.relay.Release(cfg.account, Price(cfg.params, x.bytes)),
         posts := Advance(s.posts, id, x.(stage := Refused)))
    case Book(id, dedup, rejected, saved) =>
      var x := s.posts[id].(stage := Booked(dedup, rejected));
      var relay := s.relay.Commit(cfg.account, Price(cfg.params, x.bytes), Price(cfg.params, Billed(x)));
      s.(relay := relay, durable := if saved then relay.Owed(cfg.account) else s.durable,
         posts := Advance(s.posts, id, x))
    case Drop(id) =>
      var x := s.posts[id];
      s.(relay := if x.stage.Admitted? then s.relay.Release(cfg.account, Price(cfg.params, x.bytes)) else s.relay,
         posts := Advance(s.posts, id, x.(stage := Dropped)))
    case PayArrive(sig) =>
      var (relay, reply) := HandlePay(cfg, s.relay, s.mode.cheque, sig);
      s.(relay := relay, durable := if reply.Credited? then relay.Owed(cfg.account) else s.durable,
         mode := Replied(s.mode.cheque, s.mode.mayCorrect, reply))
    case AskOwed => s.(mode := Corrected(Owed(cfg, s)), since := Since(0, 0))
    case LateArrive(c, sig) =>
      var (relay, reply) := HandlePay(cfg, s.relay, c, sig);
      s.(relay := relay, durable := if reply.Credited? then relay.Owed(cfg.account) else s.durable,
         late := s.late - {c},
         since := if reply.Credited? then s.since.(credited := s.since.credited + reply.delta) else s.since)
    case Restart =>
      s.(relay := s.relay.Put(cfg.account, s.relay.Get(cfg.account).(owed := s.durable, reserved := 0)),
         posts := Severed(s.posts),
         since := s.since.(forfeited := s.since.forfeited + SatSub(Owed(cfg, s), s.durable)))
    case Elsewhere(relay, saved) => s.(relay := relay, durable := if saved then Owed(cfg, s) else s.durable)
  }

  /** A lane that just came up, its cumulative restored from what it knows to have
      been accepted. The relay may carry debt from earlier sessions that the client
      does not know of, and more than the line now allows. */
  predicate Started(cfg: Config, s: State) {
    && s.lane == Lane(cfg.params, s.lane.owed, 0, s.lane.cumulative, cfg.cap)
    && s.lane.owed <= Owed(cfg, s) <= cfg.params.maxOutstanding && s.durable <= Owed(cfg, s)
    && s.lane.cumulative <= Last(cfg, s) <= MAX_CUMULATIVE
    && s.relay.Reserved(cfg.account) == 0
    && (cfg.chequebook in s.relay.binding ==> s.relay.binding[cfg.chequebook] == cfg.account)
    && s.posts == map[] && s.mode.Idle? && s.late == {} && s.since == Since(0, 0)
  }

  /** A lane that also knows of all the debt the relay carries, within its line, and
      of every cheque it accepted. */
  predicate InAgreement(cfg: Config, s: State) {
    Started(cfg, s) && s.lane.owed == Owed(cfg, s) <= cfg.cap && s.lane.cumulative == Last(cfg, s)
  }

  ghost predicate Runs(cfg: Config, s: State, es: seq<Event>)
    decreases |es|
  {
    es == [] || (Enabled(cfg, s, es[0]) && Runs(cfg, Step(cfg, s, es[0]), es[1..]))
  }

  ghost function After(cfg: Config, s: State, es: seq<Event>): State
    requires Runs(cfg, s, es)
    decreases |es|
  {
    if es == [] then s else After(cfg, Step(cfg, s, es[0]), es[1..])
  }

  // ---- Sums over the POSTs -------------------------------------------------

  datatype Kind =
    | Waiting      // counted by the client as in flight
    | Holding      // holds a reservation at the relay
    | Reading      // admitted, will be booked or dropped
    | Unanswered   // booked by the relay, not yet counted by the client
    | Early        // counted by the client, not yet booked by the relay
    | AtRisk       // early, and lost if the relay restarts

  /** What the client charged itself for a body it no longer waits for. */
  function Counted(p: Params, x: Post): nat { SatSub(Price(p, x.bytes), Price(p, x.seen)) }

  function Weight(p: Params, k: Kind, x: Post): nat {
    match k
    case Waiting => if x.waiting then Price(p, x.bytes) else 0
    case Holding => if x.stage.Admitted? || x.stage.Refusing? then Price(p, x.bytes) else 0
    case Reading => if x.stage.Admitted? then Price(p, x.bytes) else 0
    case Unanswered => if x.waiting && x.stage.Booked? then Price(p, Billed(x)) else 0
    case Early => if !x.waiting && (x.stage.OnWire? || x.stage.Admitted?) then Counted(p, x) else 0
    case AtRisk => if !x.waiting && x.stage.Admitted? then Counted(p, x) else 0
  }

  function Weights(p: Params, k: Kind, posts: map<nat, Post>): map<nat, nat> {
    map id | id in posts :: Weight(p, k, posts[id])
  }

  ghost function Total(p: Params, k: Kind, posts: map<nat, Post>): nat { Sum(Weights(p, k, posts)) }

  function WeightAt(p: Params, k: Kind, posts: map<nat, Post>, id: nat): nat {
    if id in posts then Weight(p, k, posts[id]) else 0
  }

  lemma TotalUpdate(p: Params, k: Kind, posts: map<nat, Post>, id: nat, x: Post)
    ensures Total(p, k, posts[id := x]) + WeightAt(p, k, posts, id) == Total(p, k, posts) + Weight(p, k, x)
  {
    assert Weights(p, k, posts[id := x]) == Weights(p, k, posts)[id := Weight(p, k, x)];
    SumUpdate(Weights(p, k, posts), id, Weight(p, k, x));
  }

  lemma TotalDrop(p: Params, k: Kind, posts: map<nat, Post>, id: nat)
    ensures Total(p, k, posts - {id}) + WeightAt(p, k, posts, id) == Total(p, k, posts)
  {
    assert Weights(p, k, posts - {id}) == Weights(p, k, posts) - {id};
    SumDrop(Weights(p, k, posts), id);
  }

  /** A POST that weighs nothing in any sum. */
  const NO_POST := Post(0, Refused, false, 0)

  /** The six sums of a set of POSTs. */
  datatype Sums = Sums(waiting: nat, holding: nat, reading: nat, unanswered: nat, early: nat, atRisk: nat)

  ghost function SumsOf(p: Params, posts: map<nat, Post>): Sums {
    Sums(Total(p, Waiting, posts), Total(p, Holding, posts), Total(p, Reading, posts),
         Total(p, Unanswered, posts), Total(p, Early, posts), Total(p, AtRisk, posts))
  }

  /** The sums before and after one POST changes from `x` to `y`. */
  predicate Shifted(p: Params, a: Sums, b: Sums, x: Post, y: Post) {
    && b.waiting + Weight(p, Waiting, x) == a.waiting + Weight(p, Waiting, y)
    && b.holding + Weight(p, Holding, x) == a.holding + Weight(p, Holding, y)
    && b.reading + Weight(p, Reading, x) == a.reading + Weight(p, Reading, y)
    && b.unanswered + Weight(p, Unanswered, x) == a.unanswered + Weight(p, Unanswered, y)
    && b.early + Weight(p, Early, x) == a.early + Weight(p, Early, y)
    && b.atRisk + Weight(p, AtRisk, x) == a.atRisk + Weight(p, AtRisk, y)
  }

  /** Relations between the sums that hold of any set of POSTs. */
  predicate Ordered(a: Sums) {
    a.unanswered <= a.waiting && a.reading <= a.holding && a.atRisk <= a.early
  }

  /** A POST's own weight is part of each sum. */
  predicate Contains(p: Params, a: Sums, x: Post) {
    && Weight(p, Waiting, x) <= a.waiting
    && Weight(p, Holding, x) <= a.holding
    && Weight(p, Reading, x) <= a.reading
    && Weight(p, Unanswered, x) <= a.unanswered
  }

  lemma SumsShift(p: Params, before: map<nat, Post>, after: map<nat, Post>, id: nat, x: Post, y: Post)
    requires after == Advance(before, id, y) || after == before[id := y]
    requires if id in before then before[id] == x else x == NO_POST
    ensures Shifted(p, SumsOf(p, before), SumsOf(p, after), x, y)
    ensures Contains(p, SumsOf(p, before), x)
  {
    TotalShift(p, Waiting, before, after, id, x, y);
    TotalShift(p, Holding, before, after, id, x, y);
    TotalShift(p, Reading, before, after, id, x, y);
    TotalShift(p, Unanswered, before, after, id, x, y);
    TotalShift(p, Early, before, after, id, x, y);
    TotalShift(p, AtRisk, before, after, id, x, y);
  }

  lemma TotalShift(p: Params, k: Kind, before: map<nat, Post>, after: map<nat, Post>, id: nat, x: Post, y: Post)
    requires after == Advance(before, id, y) || after == before[id := y]
    requires if id in before then before[id] == x else x == NO_POST
    ensures Total(p, k, after) + Weight(p, k, x) == Total(p, k, before) + Weight(p, k, y)
    ensures Weight(p, k, x) <= Total(p, k, before)
  {
    assert WeightAt(p, k, before, id) == Weight(p, k, x);
    TotalUpdate(p, k, before, id, y);
    TotalDrop(p, k, before, id);
  }

  /** A kind that never outweighs another does not outweigh it in total. */
  lemma TotalWithin(p: Params, k: Kind, whole: Kind, posts: map<nat, Post>)
    requires forall id :: id in posts ==> Weight(p, k, posts[id]) <= Weight(p, whole, posts[id])
    ensures Total(p, k, posts) <= Total(p, whole, posts)
  {
    var none: map<nat, nat> := map id | id in posts :: 0;
    SumBounded(Weights(p, k, posts), none, Weights(p, whole, posts));
  }

  lemma SumsOrdered(p: Params, posts: map<nat, Post>)
    ensures Ordered(SumsOf(p, posts))
  {
    forall id | id in posts
      ensures Weight(p, Unanswered, posts[id]) <= Weight(p, Waiting, posts[id])
    {
      UnansweredWeight(p, posts[id]);
    }
    TotalWithin(p, Unanswered, Waiting, posts);
    TotalWithin(p, Reading, Holding, posts);
    TotalWithin(p, AtRisk, Early, posts);
  }

  lemma UnansweredWeight(p: Params, x: Post)
    ensures Weight(p, Unanswered, x) <= Price(p, x.bytes)
  {
    if x.stage.Booked? {
      PriceMono(p, Billed(x), x.bytes);
    }
  }

  /** A body is never both booked and still holding its reservation. */
  lemma AllWaiting(p: Params, posts: map<nat, Post>)
    requires forall id :: id in posts ==> posts[id].waiting
    ensures SumsOf(p, posts).unanswered + SumsOf(p, posts).holding <= SumsOf(p, posts).waiting
    ensures SumsOf(p, posts).early == 0
  {
    forall id | id in posts
      ensures Weight(p, Unanswered, posts[id]) + Weight(p, Holding, posts[id]) <= Weight(p, Waiting, posts[id])
    {
      UnansweredWeight(p, posts[id]);
    }
    SumBounded(Weights(p, Unanswered, posts), Weights(p, Holding, posts), Weights(p, Waiting, posts));
    SumZero(Weights(p, Early, posts));
  }

  /** What a restart does to the sums: the bodies being read leave them, waited for
      or not. */
  predicate Cut(a: Sums, b: Sums) {
    b == a.(holding := 0, reading := 0, early := SatSub(a.early, a.atRisk), atRisk := 0)
  }

  lemma SeveredKeeps(p: Params, k: Kind, posts: map<nat, Post>)
    requires k.Waiting? || k.Unanswered?
    ensures Total(p, k, Severed(posts)) == Total(p, k, posts)
  {
    assert Weights(p, k, Severed(posts)) == Weights(p, k, posts);
  }

  lemma SeveredClears(p: Params, k: Kind, posts: map<nat, Post>)
    requires k.Holding? || k.Reading? || k.AtRisk?
    ensures Total(p, k, Severed(posts)) == 0
  {
    SumZero(Weights(p, k, Severed(posts)));
  }

  lemma SeveredSplits(p: Params, posts: map<nat, Post>)
    ensures Total(p, Early, Severed(posts)) + Total(p, AtRisk, posts) == Total(p, Early, posts)
  {
    SumSplit(Weights(p, Early, Severed(posts)), Weights(p, AtRisk, posts), Weights(p, Early, posts));
  }

  lemma SeveredCuts(p: Params, posts: map<nat, Post>)
    ensures Cut(SumsOf(p, posts), SumsOf(p, Severed(posts)))
  {
    SeveredKeeps(p, Waiting, posts);
    SeveredKeeps(p, Unanswered, posts);
    SeveredClears(p, Holding, posts);
    SeveredClears(p, Reading, posts);
    SeveredClears(p, AtRisk, posts);
    SeveredSplits(p, posts);
  }

  lemma NoPosts(p: Params)
    ensures SumsOf(p, map[]) == Sums(0, 0, 0, 0, 0, 0)
  {
    forall k: Kind ensures Total(p, k, map[]) == 0 {
      SumZero(Weights(p, k, map[]));
    }
  }

  // ---- The coupling --------------------------------------------------------

  /** How far the client's books run ahead of the relay's, once every POST in
      between is accounted for. Each side is measured by what it has paid plus
      what it owes, which a cheque leaves unchanged on both. */
  function SkewWith(cfg: Config, s: State, a: Sums): int {
    (s.lane.cumulative + s.lane.owed + a.unanswered) - (Last(cfg, s) + Owed(cfg, s) + a.early)
  }

  ghost function Skew(cfg: Config, s: State): int { SkewWith(cfg, s, SumsOf(cfg.params, s.posts)) }

  /** A figure the relay once gave is within its debt, but for what lowered the debt
      since; and cheques credited since are above all the client knows of. */
  predicate Figure(cfg: Config, s: State, v: nat) {
    && v <= Owed(cfg, s) + s.since.credited + s.since.forfeited
    && s.lane.cumulative + s.since.credited <= Last(cfg, s)
  }

  predicate ModeInv(cfg: Config, s: State) {
    match s.mode
    case Idle => true
    case Paying(c, mayCorrect) =>
      && c == s.lane.cumulative + s.lane.owed && s.lane.owed >= Floor(cfg)
      && (!mayCorrect ==> Figure(cfg, s, s.lane.owed))
    case Replied(c, mayCorrect, reply) =>
      && c == s.lane.cumulative + s.lane.owed
      && (reply.Credited? ==> c <= Last(cfg, s))
      && (!mayCorrect && reply.Overpaid? ==> s.since.forfeited > 0)
    case Correcting => true
    case Corrected(v) => Figure(cfg, s, v) && v <= cfg.params.maxOutstanding
    case Reconciling(v) => Figure(cfg, s, v)
  }

  predicate LaneInv(cfg: Config, lane: Lane, a: Sums) {
    && lane.params == cfg.params && lane.cap == cfg.cap
    && lane.pending == a.waiting <= cfg.cap
    && lane.owed + lane.pending <= 2 * cfg.params.maxOutstanding
  }

  predicate RelayInv(cfg: Config, s: State, a: Sums) {
    && s.relay.Reserved(cfg.account) == a.holding
    && Owed(cfg, s) + a.reading <= cfg.params.maxOutstanding && s.durable <= Owed(cfg, s)
    && s.lane.cumulative <= Last(cfg, s) <= MAX_CUMULATIVE
    && (cfg.chequebook in s.relay.binding ==> s.relay.binding[cfg.chequebook] == cfg.account)
  }

  /** A body is deduplicated, rejected and heard of within its own bytes. */
  predicate PostInv(x: Post) {
    && (x.stage.Booked? ==> x.stage.dedup + x.stage.rejected <= x.bytes)
    && x.seen <= (if x.waiting then 0 else x.bytes)
  }

  predicate PostsInv(posts: map<nat, Post>) { forall id :: id in posts ==> PostInv(posts[id]) }

  predicate InvWith(cfg: Config, s: State, a: Sums) {
    LaneInv(cfg, s.lane, a) && RelayInv(cfg, s, a) && PostsInv(s.posts) && ModeInv(cfg, s)
  }

  /** Holds in every run, with any losses. */
  ghost predicate Inv(cfg: Config, s: State) { InvWith(cfg, s, SumsOf(cfg.params, s.posts)) }

  /** What the client counts for a body whose answer it heard, beyond what the relay
      billed for it. The acks of the answer tell the client as much. */
  function AnswerGap(p: Params, x: Post): int {
    if x.stage.Booked? then Price(p, x.bytes) - Price(p, x.stage.dedup) - Price(p, Billed(x)) else 0
  }

  /** What each step adds to the skew: what the client counted for bytes the relay did
      not, or will not, book. That is rejected frames, broken streams, dropped and
      denied requests, and at a restart the bills and bodies it loses. Refunds are
      priced apart from the bytes billed, which can only lower it. Payments leave
      it alone, whenever they arrive. */
  function DriftWith(cfg: Config, s: State, e: Event, a: Sums): int
    requires Enabled(cfg, s, e)
  {
    var p := cfg.params;
    match e
    case Answer(id) => AnswerGap(p, s.posts[id])
    case Break(id, seen) =>
      var x := s.posts[id];
      if x.stage.OnWire? || x.stage.Admitted? then 0
      else Price(p, x.bytes) - Price(p, seen) - if x.stage.Booked? then Price(p, Billed(x)) else 0
    case PayReturn => if s.mode.reply.NothingOwed? then 0 - s.lane.owed else 0
    case Represent => s.mode.reading - s.lane.owed
    case ReconcileDone =>
      var v, counted := s.mode.reading, s.lane.owed + s.lane.pending;
      if v <= p.maxOutstanding && v <= cfg.balance && v > counted then v - counted else 0
    case Deny(id) => if s.posts[id].waiting then 0 else Counted(p, s.posts[id])
    case Arrive(id) =>
      var n := Owed(cfg, s) + s.relay.Reserved(cfg.account) + Price(p, s.posts[id].bytes);
      if !s.posts[id].waiting && n > cfg.cap then Counted(p, s.posts[id]) else 0
    case Book(id, dedup, rejected, _) =>
      var x := s.posts[id];
      if x.waiting then 0 else Counted(p, x) - Price(p, SatSub(x.bytes, dedup + rejected))
    case Drop(id) => if s.posts[id].waiting then 0 else Counted(p, s.posts[id])
    case Restart => Owed(cfg, s) - s.durable + a.atRisk
    case _ => 0
  }

  /** A step moves the skew by its drift, and adopting a figure leaves debt and bodies
      in flight within the relay's debt and what lowered it since. */
  predicate SkewLaw(cfg: Config, s: State, e: Event, t: State, a: Sums, d: int)
    requires Enabled(cfg, s, e)
  {
    && d == DriftWith(cfg, s, e, a)
    && (e.ReconcileDone? ==> 0 <= d)
    && (e.ReconcileDone? && d > 0 ==>
          t.lane.owed + t.lane.pending <= Owed(cfg, t) + t.since.credited + t.since.forfeited)
  }

  lemma DispatchMoves(cfg: Config, s: State, e: Event, a: Sums, b: Sums)
    requires Sound(cfg) && InvWith(cfg, s, a) && Enabled(cfg, s, e) && e.Dispatch?
    requires Shifted(cfg.params, a, b, NO_POST, Post(e.bytes, OnWire, true, 0))
    ensures var t := Step(cfg, s, e);
            && InvWith(cfg, t, b) && SkewWith(cfg, t, b) == SkewWith(cfg, s, a)
            && t.lane.owed + t.lane.pending <= cfg.cap
  {
  }

  lemma AnswerMoves(cfg: Config, s: State, e: Event, a: Sums, b: Sums)
    requires Sound(cfg) && InvWith(cfg, s, a) && Enabled(cfg, s, e) && e.Answer?
    requires Shifted(cfg.params, a, b, s.posts[e.id], NO_POST) && Contains(cfg.params, a, s.posts[e.id])
    ensures var t := Step(cfg, s, e);
            InvWith(cfg, t, b) && SkewLaw(cfg, s, e, t, a, SkewWith(cfg, t, b) - SkewWith(cfg, s, a))
  {
    var x := s.posts[e.id];
    if x.stage.Booked? {
      PriceMono(cfg.params, x.stage.dedup, x.bytes);
    }
  }

  lemma AnswerNeverAdds(cfg: Config, s: State, e: Event, a: Sums)
    requires Sound(cfg) && InvWith(cfg, s, a) && Enabled(cfg, s, e) && e.Answer?
    requires Contains(cfg.params, a, s.posts[e.id])
    ensures var t := Step(cfg, s, e);
            t.lane.owed + t.lane.pending <= s.lane.owed + s.lane.pending
  {
  }

  lemma BreakMoves(cfg: Config, s: State, e: Event, a: Sums, b: Sums)
    requires Sound(cfg) && InvWith(cfg, s, a) && Enabled(cfg, s, e) && e.Break?
    requires Shifted(cfg.params, a, b, s.posts[e.id], s.posts[e.id].(waiting := false, seen := e.seen))
    requires Contains(cfg.params, a, s.posts[e.id])
    ensures var t := Step(cfg, s, e);
            InvWith(cfg, t, b) && SkewLaw(cfg, s, e, t, a, SkewWith(cfg, t, b) - SkewWith(cfg, s, a))
  {
    PriceMono(cfg.params, e.seen, s.posts[e.id].bytes);
  }

  /** The client's talks with the relay: cheques out, outcomes in, figures read,
      replies lost. No POST changes hands. */
  predicate Talk(e: Event) {
    e.PayStart? || e.PayReturn? || e.Represent? || e.ReconcileAsk? || e.ReconcileDone? || e.Lost? || e.AskOwed?
    || e.Elsewhere?
  }

  /** A cheque reaches the relay, awaited or not. */
  predicate Cheque(e: Event) { e.PayArrive? || e.LateArrive? }

  lemma PaymentMoves(cfg: Config, s: State, e: Event, a: Sums)
    requires Sound(cfg) && InvWith(cfg, s, a) && Enabled(cfg, s, e) && (e.PayStart? || e.PayReturn?)
    ensures var t := Step(cfg, s, e);
            InvWith(cfg, t, a) && SkewLaw(cfg, s, e, t, a, SkewWith(cfg, t, a) - SkewWith(cfg, s, a))
  {
  }

  lemma ReadingMoves(cfg: Config, s: State, e: Event, a: Sums)
    requires Sound(cfg) && InvWith(cfg, s, a) && Enabled(cfg, s, e) && (e.ReconcileAsk? || e.AskOwed?)
    ensures var t := Step(cfg, s, e);
            InvWith(cfg, t, a) && SkewLaw(cfg, s, e, t, a, SkewWith(cfg, t, a) - SkewWith(cfg, s, a))
  {
  }

  lemma OtherwiseMoves(cfg: Config, s: State, e: Event, a: Sums)
    requires Sound(cfg) && InvWith(cfg, s, a) && Enabled(cfg, s, e) && (e.Lost? || e.Elsewhere?)
    ensures var t := Step(cfg, s, e);
            InvWith(cfg, t, a) && SkewLaw(cfg, s, e, t, a, SkewWith(cfg, t, a) - SkewWith(cfg, s, a))
  {
  }

  lemma FigureMoves(cfg: Config, s: State, e: Event, a: Sums)
    requires Sound(cfg) && InvWith(cfg, s, a) && Ordered(a) && Enabled(cfg, s, e)
    requires e.Represent? || e.ReconcileDone?
    ensures var t := Step(cfg, s, e);
            InvWith(cfg, t, a) && SkewLaw(cfg, s, e, t, a, SkewWith(cfg, t, a) - SkewWith(cfg, s, a))
  {
  }

  lemma ArriveMoves(cfg: Config, s: State, e: Event, a: Sums, b: Sums)
    requires Sound(cfg) && InvWith(cfg, s, a) && Enabled(cfg, s, e) && e.Arrive? && Ordered(a)
    requires Shifted(cfg.params, a, b, s.posts[e.id], Step(cfg, s, e).posts[e.id])
    ensures var t := Step(cfg, s, e);
            InvWith(cfg, t, b) && SkewLaw(cfg, s, e, t, a, SkewWith(cfg, t, b) - SkewWith(cfg, s, a))
  {
    ReserveMoves(s.relay, cfg.account, Price(cfg.params, s.posts[e.id].bytes), cfg.cap, cfg.account);
  }

  /** The relay turns an arriving body away exactly when what it is owed and holds,
      with the body's price, passes the line. */
  lemma ArriveVerdict(cfg: Config, s: State, e: Event, a: Sums)
    requires Sound(cfg) && InvWith(cfg, s, a) && Enabled(cfg, s, e) && e.Arrive?
    ensures Step(cfg, s, e).posts[e.id].stage.Refusing?
            <==> Owed(cfg, s) + a.holding + Price(cfg.params, s.posts[e.id].bytes) > cfg.cap
  {
  }

  function Finished(x: Post, e: Event): Post
    requires e.Deny? || e.Refuse? || e.Book? || e.Drop?
  {
    x.(stage := if e.Deny? || e.Refuse? then Refused else if e.Book? then Booked(e.dedup, e.rejected) else Dropped)
  }

  /** What booking a body does to the relay's side of the account. */
  lemma BookBills(cfg: Config, s: State, e: Event, a: Sums)
    requires Sound(cfg) && InvWith(cfg, s, a) && Enabled(cfg, s, e) && e.Book?
    requires Contains(cfg.params, a, s.posts[e.id])
    ensures var t := Step(cfg, s, e);
            var x := Finished(s.posts[e.id], e);
            && Price(cfg.params, Billed(x)) <= Price(cfg.params, x.bytes)
            && Owed(cfg, t) == Owed(cfg, s) + Price(cfg.params, Billed(x)) && Last(cfg, t) == Last(cfg, s)
            && t.relay.Reserved(cfg.account) + Price(cfg.params, x.bytes) == s.relay.Reserved(cfg.account)
            && t.relay.binding == s.relay.binding && t.durable <= Owed(cfg, t)
  {
    var x := Finished(s.posts[e.id], e);
    PriceMono(cfg.params, Billed(x), x.bytes);
    CommitMoves(s.relay, cfg.account, Price(cfg.params, x.bytes), Price(cfg.params, Billed(x)), cfg.account);
  }

  lemma BookHeardMoves(cfg: Config, s: State, e: Event, a: Sums, b: Sums)
    requires Sound(cfg) && InvWith(cfg, s, a) && Enabled(cfg, s, e) && e.Book? && s.posts[e.id].waiting
    requires Shifted(cfg.params, a, b, s.posts[e.id], Finished(s.posts[e.id], e))
    requires Contains(cfg.params, a, s.posts[e.id])
    ensures var t := Step(cfg, s, e);
            InvWith(cfg, t, b) && SkewLaw(cfg, s, e, t, a, SkewWith(cfg, t, b) - SkewWith(cfg, s, a))
  {
    BookBills(cfg, s, e, a);
  }

  lemma BookUnheardMoves(cfg: Config, s: State, e: Event, a: Sums, b: Sums)
    requires Sound(cfg) && InvWith(cfg, s, a) && Enabled(cfg, s, e) && e.Book? && !s.posts[e.id].waiting
    requires Shifted(cfg.params, a, b, s.posts[e.id], Finished(s.posts[e.id], e))
    requires Contains(cfg.params, a, s.posts[e.id])
    ensures var t := Step(cfg, s, e);
            InvWith(cfg, t, b) && SkewLaw(cfg, s, e, t, a, SkewWith(cfg, t, b) - SkewWith(cfg, s, a))
  {
    BookBills(cfg, s, e, a);
  }

  lemma RefuseMoves(cfg: Config, s: State, e: Event, a: Sums, b: Sums)
    requires Sound(cfg) && InvWith(cfg, s, a) && Enabled(cfg, s, e) && e.Refuse?
    requires Shifted(cfg.params, a, b, s.posts[e.id], Finished(s.posts[e.id], e))
    requires Contains(cfg.params, a, s.posts[e.id])
    ensures var t := Step(cfg, s, e);
            InvWith(cfg, t, b) && SkewLaw(cfg, s, e, t, a, SkewWith(cfg, t, b) - SkewWith(cfg, s, a))
  {
    ReleaseMoves(s.relay, cfg.account, Price(cfg.params, s.posts[e.id].bytes), cfg.account);
  }

  lemma DropReadMoves(cfg: Config, s: State, e: Event, a: Sums, b: Sums)
    requires Sound(cfg) && InvWith(cfg, s, a) && Enabled(cfg, s, e) && e.Drop? && s.posts[e.id].stage.Admitted?
    requires Shifted(cfg.params, a, b, s.posts[e.id], Finished(s.posts[e.id], e))
    requires Contains(cfg.params, a, s.posts[e.id])
    ensures var t := Step(cfg, s, e);
            InvWith(cfg, t, b) && SkewLaw(cfg, s, e, t, a, SkewWith(cfg, t, b) - SkewWith(cfg, s, a))
  {
    ReleaseMoves(s.relay, cfg.account, Price(cfg.params, s.posts[e.id].bytes), cfg.account);
  }

  lemma DenyMoves(cfg: Config, s: State, e: Event, a: Sums, b: Sums)
    requires Sound(cfg) && InvWith(cfg, s, a) && Enabled(cfg, s, e) && e.Deny?
    requires Shifted(cfg.params, a, b, s.posts[e.id], Finished(s.posts[e.id], e))
    ensures var t := Step(cfg, s, e);
            InvWith(cfg, t, b) && SkewLaw(cfg, s, e, t, a, SkewWith(cfg, t, b) - SkewWith(cfg, s, a))
  {
  }

  lemma DropUnreadMoves(cfg: Config, s: State, e: Event, a: Sums, b: Sums)
    requires Sound(cfg) && InvWith(cfg, s, a) && Enabled(cfg, s, e) && e.Drop? && s.posts[e.id].stage.OnWire?
    requires Shifted(cfg.params, a, b, s.posts[e.id], Finished(s.posts[e.id], e))
    ensures var t := Step(cfg, s, e);
            InvWith(cfg, t, b) && SkewLaw(cfg, s, e, t, a, SkewWith(cfg, t, b) - SkewWith(cfg, s, a))
  {
  }

  /** A credited cheque moves its delta from the relay's debt to what it was paid;
      any other leaves the account as it was. */
  lemma PayHandled(cfg: Config, relay: Books, c: nat, sig: Signature)
    requires cfg.chequebook in relay.binding ==> relay.binding[cfg.chequebook] == cfg.account
    ensures var (after, reply) := HandlePay(cfg, relay, c, sig);
            && after.Reserved(cfg.account) == relay.Reserved(cfg.account)
            && (cfg.chequebook in after.binding ==> after.binding[cfg.chequebook] == cfg.account)
            && (var owed, last := relay.Owed(cfg.account), relay.LastCumulative(cfg.account, cfg.chequebook);
                var owed2, last2 := after.Owed(cfg.account), after.LastCumulative(cfg.account, cfg.chequebook);
                && (reply.Credited? ==> owed2 + reply.delta == owed && last2 == last + reply.delta == c <= MAX_CUMULATIVE)
                && (!reply.Credited? ==> owed2 == owed && last2 == last)
                && (reply.Overpaid? ==> c > last + owed))
  {
    CreditAccepts(relay, cfg.account, cfg.chequebook, c, sig);
    if relay.Credit(cfg.account, cfg.chequebook, c, sig).1.Ok? {
      CreditMovesDelta(relay, cfg.account, cfg.chequebook, c, sig, cfg.account, cfg.chequebook);
    }
  }

  /** Which reply a cheque gets, on the figures it is judged by. */
  lemma PayVerdict(cfg: Config, relay: Books, c: nat, sig: Signature)
    requires cfg.chequebook in relay.binding ==> relay.binding[cfg.chequebook] == cfg.account
    ensures var reply := HandlePay(cfg, relay, c, sig).1;
            var owed, last := relay.Owed(cfg.account), relay.LastCumulative(cfg.account, cfg.chequebook);
            && (reply.NothingOwed? <==> owed == 0)
            && (reply.Implausible? <==> owed > 0 && c > MAX_CUMULATIVE)
            && (reply.Stale? <==> owed > 0 && c <= MAX_CUMULATIVE && c <= last)
            && (reply.Dust? <==> owed > 0 && c <= MAX_CUMULATIVE && last < c < last + Floor(cfg))
            && (reply.Overpaid? <==>
                  owed > 0 && c <= MAX_CUMULATIVE && last < c && last + Floor(cfg) <= c && last + owed < c)
            && (reply.Credited? <==>
                  owed > 0 && c <= MAX_CUMULATIVE && last < c && last + Floor(cfg) <= c <= last + owed)
  {
    CreditAccepts(relay, cfg.account, cfg.chequebook, c, sig);
  }

  lemma PayArriveMoves(cfg: Config, s: State, e: Event, a: Sums)
    requires Sound(cfg) && InvWith(cfg, s, a) && Enabled(cfg, s, e) && e.PayArrive?
    ensures InvWith(cfg, Step(cfg, s, e), a) && SkewWith(cfg, Step(cfg, s, e), a) == SkewWith(cfg, s, a)
  {
    PayHandled(cfg, s.relay, s.mode.cheque, e.signature);
  }

  lemma LateArriveMoves(cfg: Config, s: State, e: Event, a: Sums)
    requires Sound(cfg) && InvWith(cfg, s, a) && Enabled(cfg, s, e) && e.LateArrive?
    ensures InvWith(cfg, Step(cfg, s, e), a) && SkewWith(cfg, Step(cfg, s, e), a) == SkewWith(cfg, s, a)
  {
    PayHandled(cfg, s.relay, e.cheque, e.signature);
  }

  lemma RestartMoves(cfg: Config, s: State, e: Event, a: Sums, b: Sums)
    requires Sound(cfg) && InvWith(cfg, s, a) && Ordered(a) && Enabled(cfg, s, e) && e.Restart? && Cut(a, b)
    ensures var t := Step(cfg, s, e);
            InvWith(cfg, t, b) && SkewLaw(cfg, s, e, t, a, SkewWith(cfg, t, b) - SkewWith(cfg, s, a))
  {
  }

  /** A step of one POST. */
  predicate Moves(e: Event) { !Talk(e) && !Cheque(e) && !e.Restart? }

  /** The POST a step moves, as it was and as it becomes. */
  function Touched(cfg: Config, s: State, e: Event): (nat, Post, Post)
    requires Enabled(cfg, s, e) && Moves(e)
  {
    if e.Dispatch? then (e.id, NO_POST, Post(e.bytes, OnWire, true, 0))
    else
      var x := s.posts[e.id];
      (e.id, x,
       if e.Answer? then NO_POST
       else if e.Break? then x.(waiting := false, seen := e.seen)
       else if e.Arrive? then Step(cfg, s, e).posts[e.id]
       else Finished(x, e))
  }

  lemma TouchedShift(cfg: Config, s: State, e: Event)
    requires Enabled(cfg, s, e) && Moves(e)
    ensures var (id, x, y) := Touched(cfg, s, e);
            var a, b := SumsOf(cfg.params, s.posts), SumsOf(cfg.params, Step(cfg, s, e).posts);
            Shifted(cfg.params, a, b, x, y) && Contains(cfg.params, a, x)
  {
    var (id, x, y) := Touched(cfg, s, e);
    SumsShift(cfg.params, s.posts, Step(cfg, s, e).posts, id, x, y);
  }

  /** A step that keeps the invariant and obeys the skew law, on given sums before
      and after. */
  predicate LawfulWith(cfg: Config, s: State, e: Event, t: State, a: Sums, b: Sums)
    requires Enabled(cfg, s, e)
  {
    InvWith(cfg, t, b) && SkewLaw(cfg, s, e, t, a, SkewWith(cfg, t, b) - SkewWith(cfg, s, a))
  }

  lemma TalkLaw(cfg: Config, s: State, e: Event, a: Sums)
    requires Sound(cfg) && InvWith(cfg, s, a) && Ordered(a) && Enabled(cfg, s, e) && (Talk(e) || Cheque(e))
    ensures LawfulWith(cfg, s, e, Step(cfg, s, e), a, a)
  {
    if e.Represent? || e.ReconcileDone? {
      FigureMoves(cfg, s, e, a);
    } else if e.PayArrive? {
      PayArriveMoves(cfg, s, e, a);
    } else if e.LateArrive? {
      LateArriveMoves(cfg, s, e, a);
    } else if e.PayStart? || e.PayReturn? {
      PaymentMoves(cfg, s, e, a);
    } else if e.ReconcileAsk? || e.AskOwed? {
      ReadingMoves(cfg, s, e, a);
    } else {
      OtherwiseMoves(cfg, s, e, a);
    }
  }

  lemma PostLaw(cfg: Config, s: State, e: Event, a: Sums, b: Sums)
    requires Sound(cfg) && InvWith(cfg, s, a) && Ordered(a) && Enabled(cfg, s, e) && Moves(e)
    requires var (id, x, y) := Touched(cfg, s, e);
             Shifted(cfg.params, a, b, x, y) && Contains(cfg.params, a, x)
    ensures LawfulWith(cfg, s, e, Step(cfg, s, e), a, b)
  {
    if e.Dispatch? {
      DispatchMoves(cfg, s, e, a, b);
    } else if e.Answer? {
      AnswerMoves(cfg, s, e, a, b);
    } else if e.Break? {
      BreakMoves(cfg, s, e, a, b);
    } else if e.Arrive? {
      ArriveMoves(cfg, s, e, a, b);
    } else if e.Book? && s.posts[e.id].waiting {
      BookHeardMoves(cfg, s, e, a, b);
    } else if e.Book? {
      BookUnheardMoves(cfg, s, e, a, b);
    } else if e.Refuse? {
      RefuseMoves(cfg, s, e, a, b);
    } else if e.Deny? {
      DenyMoves(cfg, s, e, a, b);
    } else if s.posts[e.id].stage.Admitted? {
      DropReadMoves(cfg, s, e, a, b);
    } else {
      DropUnreadMoves(cfg, s, e, a, b);
    }
  }

  /** The law with the sums of the POSTs filled in. */
  ghost predicate Lawful(cfg: Config, s: State, e: Event, t: State)
    requires Enabled(cfg, s, e)
  {
    LawfulWith(cfg, s, e, t, SumsOf(cfg.params, s.posts), SumsOf(cfg.params, t.posts))
  }

  lemma TalkKeepsPosts(cfg: Config, s: State, e: Event)
    requires Enabled(cfg, s, e) && (Talk(e) || Cheque(e))
    ensures Step(cfg, s, e).posts == s.posts
  {
  }

  lemma TalkStepLaw(cfg: Config, s: State, e: Event, t: State)
    requires Sound(cfg) && Inv(cfg, s) && Enabled(cfg, s, e) && t == Step(cfg, s, e)
    requires Talk(e) || Cheque(e)
    ensures Lawful(cfg, s, e, t)
  {
    TalkKeepsPosts(cfg, s, e);
    SumsOrdered(cfg.params, s.posts);
    TalkLaw(cfg, s, e, SumsOf(cfg.params, s.posts));
  }

  lemma PostStepLaw(cfg: Config, s: State, e: Event, t: State)
    requires Sound(cfg) && Inv(cfg, s) && Enabled(cfg, s, e) && t == Step(cfg, s, e)
    requires Moves(e)
    ensures Lawful(cfg, s, e, t)
  {
    SumsOrdered(cfg.params, s.posts);
    TouchedShift(cfg, s, e);
    PostLaw(cfg, s, e, SumsOf(cfg.params, s.posts), SumsOf(cfg.params, t.posts));
  }

  /** Every step of every run keeps the invariant and obeys the skew law. */
  lemma StepLaw(cfg: Config, s: State, e: Event)
    requires Sound(cfg) && Inv(cfg, s) && Enabled(cfg, s, e)
    ensures Lawful(cfg, s, e, Step(cfg, s, e))
  {
    var t := Step(cfg, s, e);
    if Talk(e) || Cheque(e) {
      TalkStepLaw(cfg, s, e, t);
    } else if e.Restart? {
      SumsOrdered(cfg.params, s.posts);
      SeveredCuts(cfg.params, s.posts);
      RestartMoves(cfg, s, e, SumsOf(cfg.params, s.posts), SumsOf(cfg.params, t.posts));
    } else {
      PostStepLaw(cfg, s, e, t);
    }
  }

  lemma StartedInv(cfg: Config, s: State)
    requires Sound(cfg) && Started(cfg, s)
    ensures Inv(cfg, s)
    ensures Skew(cfg, s) == (s.lane.cumulative + s.lane.owed) - (Last(cfg, s) + Owed(cfg, s)) <= 0
  {
    NoPosts(cfg.params);
  }

  ghost function Drift(cfg: Config, s: State, e: Event): int
    requires Enabled(cfg, s, e)
  {
    DriftWith(cfg, s, e, SumsOf(cfg.params, s.posts))
  }

  /** What the steps of a run add to the skew, read off the run. */
  ghost function RunDrift(cfg: Config, s: State, es: seq<Event>): int
    requires Runs(cfg, s, es)
    decreases |es|
  {
    if es == [] then 0 else Drift(cfg, s, es[0]) + RunDrift(cfg, Step(cfg, s, es[0]), es[1..])
  }

  /** The skew is the sum of what every step of the run added to it. */
  lemma {:induction false} RunSkew(cfg: Config, s: State, es: seq<Event>)
    requires Sound(cfg) && Inv(cfg, s) && Runs(cfg, s, es)
    ensures Skew(cfg, After(cfg, s, es)) == Skew(cfg, s) + RunDrift(cfg, s, es)
    decreases |es|
  {
    if es != [] {
      StepLaw(cfg, s, es[0]);
      RunSkew(cfg, Step(cfg, s, es[0]), es[1..]);
    }
  }

  lemma {:induction false} RunKeepsInv(cfg: Config, s: State, es: seq<Event>)
    requires Sound(cfg) && Inv(cfg, s) && Runs(cfg, s, es)
    ensures Inv(cfg, After(cfg, s, es))
    decreases |es|
  {
    if es != [] {
      StepLaw(cfg, s, es[0]);
      RunKeepsInv(cfg, Step(cfg, s, es[0]), es[1..]);
    }
  }
}
