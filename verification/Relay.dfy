/** The metered relay as a step system: concurrent requests that reserve and then
    commit or drop, cheques applied under the ledger lock, disk writes that fail,
    and restarts at any point, including while a cheque is half applied. */
module Relay {
  import opened Arith
  import opened MapSums
  import opened Meter
  import opened Ledgers

  const PUSH_MAX_BODY: nat := 512 * 4251 + 4096

  datatype Config = Config(params: Params, hard: bool)

  /** A request holding a reservation. Under hard mode an over-cap reservation
      is taken first and given back in a later step. */
  datatype Admitted = Admitted(account: Address, declared: nat, refused: bool)

  /** A cheque credited in memory and not yet on disk, with the readings taken
      before it. `before` is the ledger at that moment, kept for the proofs. */
  datatype Paying = Paying(before: Books, account: Address, chequebook: Address, cumulative: nat,
                           signature: Signature, delta: nat,
                           prevOwed: nat, prevHeld: Option<HeldCheque>, hadBinding: bool)

  datatype CreditEvent = CreditEvent(account: Address, chequebook: Address, cumulative: nat, delta: nat)

  /** `billed`, `forfeited` and `credits` record the run and are never read by it. */
  datatype State = State(
    mem: Books,
    disk: Books,
    live: map<nat, Admitted>,
    lock: Option<Paying>,
    billed: map<Address, nat>,
    forfeited: map<Address, nat>,
    credits: seq<CreditEvent>)

  datatype Event =
    | Admit(id: nat, account: Address, declared: nat, batchValue: nat)
    | Commit(id: nat, billable: nat, saved: bool)
    | Drop(id: nat)
    | PayCredit(account: Address, chequebook: Address, cumulative: nat, signature: Signature)
    | PaySaved
    | PaySaveFailed
    | Crash

  function Reservation(p: Params, x: Admitted): nat { Price(p, x.declared) }

  predicate Enabled(cfg: Config, s: State, e: Event) {
    match e
    case Admit(id, a, declared, _) =>
      && s.lock.None? && id !in s.live && declared <= PUSH_MAX_BODY
      && s.mem.Owed(a) + s.mem.Reserved(a) + Price(cfg.params, declared) <= U128_MAX
    case Commit(id, billable, _) =>
      s.lock.None? && id in s.live && !s.live[id].refused && billable <= s.live[id].declared
    case Drop(id) => s.lock.None? && id in s.live
    case PayCredit(_, _, _, _) => s.lock.None?
    case PaySaved => s.lock.Some?
    case PaySaveFailed => s.lock.Some?
    case Crash => true
  }

  /** The books as of the last operation that completed. */
  function Settled(s: State): Books {
    if s.lock.Some? then s.lock.value.before else s.mem
  }

  function Step(cfg: Config, s: State, e: Event): State
    requires cfg.params.creditRatio > 0
    requires Enabled(cfg, s, e)
  {
    match e
    case Admit(id, a, declared, batchValue) =>
      var (mem, adm) := s.mem.Reserve(a, Price(cfg.params, declared), CreditLine(cfg.params, batchValue));
      s.(mem := mem, live := s.live[id := Admitted(a, declared, cfg.hard && adm.overCap)])
    case Commit(id, billable, saved) =>
      var x := s.live[id];
      var bill := Price(cfg.params, billable);
      var mem := s.mem.Commit(x.account, Reservation(cfg.params, x), bill);
      s.(mem := mem,
         disk := if saved then mem.Durable() else s.disk,
         live := s.live - {id},
         billed := s.billed[x.account := MapSums.Get(s.billed, x.account) + bill])
    case Drop(id) =>
      var x := s.live[id];
      s.(mem := s.mem.Release(x.account, Reservation(cfg.params, x)), live := s.live - {id})
    case PayCredit(a, cb, c, sig) =>
      var (mem, r) := s.mem.Credit(a, cb, c, sig);
      if r.Ok? then
        s.(mem := mem,
           lock := Some(Paying(s.mem, a, cb, c, sig, r.value,
                               s.mem.Owed(a), s.mem.Held(a, cb), s.mem.HadBinding(cb))))
      else s.(mem := mem)
    case PaySaved =>
      var w := s.lock.value;
      s.(disk := s.mem.Durable(), lock := None,
         credits := s.credits + [CreditEvent(w.account, w.chequebook, w.cumulative, w.delta)])
    case PaySaveFailed =>
      var w := s.lock.value;
      s.(mem := s.mem.RollbackCredit(w.account, w.chequebook, w.prevOwed, w.prevHeld, w.hadBinding),
         lock := None)
    case Crash =>
      s.(mem := s.disk, live := map[], lock := None,
         forfeited := map a | a in Settled(s).accounts.Keys + s.forfeited.Keys ::
           MapSums.Get(s.forfeited, a) + SatSub(Settled(s).Owed(a), s.disk.Owed(a)))
  }

  const FRESH := State(Books(map[], map[]), Books(map[], map[]), map[], None, map[], map[], [])

  ghost predicate Runs(cfg: Config, s: State, es: seq<Event>)
    requires cfg.params.creditRatio > 0
    decreases |es|
  {
    es == [] || (Enabled(cfg, s, es[0]) && Runs(cfg, Step(cfg, s, es[0]), es[1..]))
  }

  ghost function After(cfg: Config, s: State, es: seq<Event>): State
    requires cfg.params.creditRatio > 0
    requires Runs(cfg, s, es)
    decreases |es|
  {
    if es == [] then s else After(cfg, Step(cfg, s, es[0]), es[1..])
  }

  // ---- Sums ----------------------------------------------------------------

  function Weight(p: Params, x: Admitted, a: Address, all: bool): nat {
    if x.account == a && (all || !x.refused) then Reservation(p, x) else 0
  }

  function Weights(p: Params, live: map<nat, Admitted>, a: Address, all: bool): map<nat, nat> {
    map id | id in live :: Weight(p, live[id], a, all)
  }

  /** Summed reservations of an account: all live ones, or only those not being refused. */
  ghost function LiveTotal(p: Params, live: map<nat, Admitted>, a: Address, all: bool): nat {
    Sum(Weights(p, live, a, all))
  }

  lemma LiveAdd(p: Params, live: map<nat, Admitted>, id: nat, x: Admitted, a: Address, all: bool)
    requires id !in live
    ensures LiveTotal(p, live[id := x], a, all) == LiveTotal(p, live, a, all) + Weight(p, x, a, all)
  {
    var w := Weights(p, live, a, all);
    assert Weights(p, live[id := x], a, all) == w[id := Weight(p, x, a, all)];
    SumUpdate(w, id, Weight(p, x, a, all));
  }

  lemma LiveDrop(p: Params, live: map<nat, Admitted>, id: nat, a: Address, all: bool)
    requires id in live
    ensures LiveTotal(p, live - {id}, a, all) + Weight(p, live[id], a, all) == LiveTotal(p, live, a, all)
  {
    var w := Weights(p, live, a, all);
    assert Weights(p, live - {id}, a, all) == w - {id};
    SumDrop(w, id);
  }

  function Cumulatives(last: map<Address, HeldCheque>): map<Address, nat> {
    map cb | cb in last :: last[cb].cumulative
  }

  /** Everything an account's chequebooks have paid it down by. */
  ghost function Paid(last: map<Address, HeldCheque>): nat { Sum(Cumulatives(last)) }

  lemma PaidUpdate(last: map<Address, HeldCheque>, cb: Address, h: HeldCheque)
    ensures Paid(last[cb := h]) + (if cb in last then last[cb].cumulative else 0) == Paid(last) + h.cumulative
  {
    assert Cumulatives(last[cb := h]) == Cumulatives(last)[cb := h.cumulative];
    SumUpdate(Cumulatives(last), cb, h.cumulative);
  }

  function DeltasOn(credits: seq<CreditEvent>, cb: Address): nat {
    if credits == [] then 0 else
      var e := credits[|credits| - 1];
      DeltasOn(credits[..|credits| - 1], cb) + if e.chequebook == cb then e.delta else 0
  }

  /** The cumulative accepted on a chequebook, under whichever account it is bound to. */
  function Accepted(b: Books, cb: Address): nat {
    if cb in b.binding then b.LastCumulative(b.binding[cb], cb) else 0
  }

  // ---- The invariant -------------------------------------------------------

  ghost predicate AccountInv(cfg: Config, s: State, a: Address) {
    var b := Settled(s);
    && b.Reserved(a) == LiveTotal(cfg.params, s.live, a, true)
    && b.Owed(a) + b.Reserved(a) <= U128_MAX
    && b.Get(a).last == s.disk.Get(a).last
    && s.disk.Reserved(a) == 0
    && s.disk.Owed(a) <= b.Owed(a)
    && b.Owed(a) + Paid(b.Get(a).last) + MapSums.Get(s.forfeited, a) == MapSums.Get(s.billed, a)
  }

  ghost predicate ChequeInv(s: State) {
    var b := Settled(s);
    && b.binding == s.disk.binding
    && BindingMatches(b)
    && (forall cb :: DeltasOn(s.credits, cb) == Accepted(b, cb))
    && (forall i :: 0 <= i < |s.credits| ==> s.credits[i].cumulative <= Accepted(b, s.credits[i].chequebook))
  }

  predicate LockInv(s: State) {
    s.lock.Some? ==>
      var w := s.lock.value;
      && w.before.Credit(w.account, w.chequebook, w.cumulative, w.signature) == (s.mem, Ok(w.delta))
      && w.prevOwed == w.before.Owed(w.account)
      && w.prevHeld == w.before.Held(w.account, w.chequebook)
      && w.hadBinding == w.before.HadBinding(w.chequebook)
  }

  ghost predicate Inv(cfg: Config, s: State) {
    && (forall a :: AccountInv(cfg, s, a))
    && ChequeInv(s)
    && LockInv(s)
  }

  // ---- Each step keeps it --------------------------------------------------

  lemma AdmitAccount(cfg: Config, s: State, e: Event, x: Address)
    requires cfg.params.creditRatio > 0 && Inv(cfg, s) && e.Admit? && Enabled(cfg, s, e)
    ensures AccountInv(cfg, Step(cfg, s, e), x)
  {
    assert AccountInv(cfg, s, x);
    var t := Step(cfg, s, e);
    LiveAdd(cfg.params, s.live, e.id, t.live[e.id], x, true);
  }

  /** Reservations not being refused are part of all reservations. */
  lemma LiveSplit(p: Params, live: map<nat, Admitted>, a: Address)
    ensures LiveTotal(p, live, a, false) <= LiveTotal(p, live, a, true)
  {
    var none: map<nat, nat> := map id | id in live :: 0;
    SumBounded(Weights(p, live, a, false), none, Weights(p, live, a, true));
  }

  /** A live request's reservation is part of its account's, so giving it back
      never clips at zero. */
  lemma LiveShare(p: Params, live: map<nat, Admitted>, id: nat)
    requires id in live
    ensures Reservation(p, live[id]) <= LiveTotal(p, live, live[id].account, true)
  {
    LiveDrop(p, live, id, live[id].account, true);
  }

  lemma CommitOwnAccount(cfg: Config, s: State, e: Event)
    requires cfg.params.creditRatio > 0 && e.Commit? && Enabled(cfg, s, e)
    requires AccountInv(cfg, s, s.live[e.id].account)
    ensures AccountInv(cfg, Step(cfg, s, e), s.live[e.id].account)
  {
    var who := s.live[e.id];
    LiveShare(cfg.params, s.live, e.id);
    PriceMono(cfg.params, e.billable, who.declared);
    CommitMoves(s.mem, who.account, Reservation(cfg.params, who), Price(cfg.params, e.billable), who.account);
    LiveDrop(cfg.params, s.live, e.id, who.account, true);
  }

  lemma CommitOtherAccount(cfg: Config, s: State, e: Event, x: Address)
    requires cfg.params.creditRatio > 0 && e.Commit? && Enabled(cfg, s, e)
    requires AccountInv(cfg, s, x) && x != s.live[e.id].account
    ensures AccountInv(cfg, Step(cfg, s, e), x)
  {
    LiveDrop(cfg.params, s.live, e.id, x, true);
  }

  lemma DropAccount(cfg: Config, s: State, e: Event, x: Address)
    requires cfg.params.creditRatio > 0 && Inv(cfg, s) && e.Drop? && Enabled(cfg, s, e)
    ensures AccountInv(cfg, Step(cfg, s, e), x)
  {
    assert AccountInv(cfg, s, x);
    LiveDrop(cfg.params, s.live, e.id, x, true);
    LiveShare(cfg.params, s.live, e.id);
  }

  lemma PayCreditKeeps(cfg: Config, s: State, e: Event)
    requires cfg.params.creditRatio > 0 && Inv(cfg, s) && e.PayCredit? && Enabled(cfg, s, e)
    ensures Inv(cfg, Step(cfg, s, e))
  {
    var t := Step(cfg, s, e);
    CreditAccepts(s.mem, e.account, e.chequebook, e.cumulative, e.signature);
    assert SameBooks(Settled(t), Settled(s));
    SameStateInv(cfg, s, t);
  }

  /** Nothing in the invariant but the answers of the settled books. */
  lemma SameStateInv(cfg: Config, s: State, t: State)
    requires Inv(cfg, s)
    requires SameBooks(Settled(t), Settled(s)) && LockInv(t)
    requires t == s.(mem := t.mem, lock := t.lock)
    ensures Inv(cfg, t)
  {
    forall a
      ensures Settled(t).Get(a) == Settled(s).Get(a)
    {
      SameBooksEverywhere(Settled(t), Settled(s), a);
    }
    forall a
      ensures AccountInv(cfg, t, a)
    {
      assert AccountInv(cfg, s, a);
    }
    assert forall cb :: Accepted(Settled(t), cb) == Accepted(Settled(s), cb);
  }

  lemma PaySaveFailedKeeps(cfg: Config, s: State)
    requires cfg.params.creditRatio > 0 && Inv(cfg, s) && s.lock.Some?
    ensures Inv(cfg, Step(cfg, s, PaySaveFailed))
  {
    var w := s.lock.value;
    RollbackUndoesCredit(w.before, w.account, w.chequebook, w.cumulative, w.signature);
    SameStateInv(cfg, s, Step(cfg, s, PaySaveFailed));
  }

  lemma PaySavedAccount(cfg: Config, s: State, x: Address)
    requires cfg.params.creditRatio > 0 && AccountInv(cfg, s, x) && LockInv(s) && s.lock.Some?
    ensures AccountInv(cfg, Step(cfg, s, PaySaved), x)
  {
    var w := s.lock.value;
    CreditMovesDelta(w.before, w.account, w.chequebook, w.cumulative, w.signature, x, w.chequebook);
    if x == w.account {
      PaidUpdate(w.before.Get(x).last, w.chequebook, HeldCheque(w.cumulative, w.signature));
    }
  }

  lemma PaySavedCheques(cfg: Config, s: State)
    requires cfg.params.creditRatio > 0 && Inv(cfg, s) && s.lock.Some?
    ensures ChequeInv(Step(cfg, s, PaySaved))
  {
    var w := s.lock.value;
    var b, t := w.before, Step(cfg, s, PaySaved);
    CreditMovesDelta(b, w.account, w.chequebook, w.cumulative, w.signature, w.account, w.chequebook);
    forall a, cb
      ensures cb in t.mem.Get(a).last <==> (cb in t.mem.binding && t.mem.binding[cb] == a)
    {
      assert cb in b.Get(a).last <==> (cb in b.binding && b.binding[cb] == a);
      CreditMovesDelta(b, w.account, w.chequebook, w.cumulative, w.signature, a, cb);
      assert t.mem.Held(a, cb).Some? <==> cb in t.mem.Get(a).last;
      assert b.Held(a, cb).Some? <==> cb in b.Get(a).last;
      if cb == w.chequebook && a != w.account {
        assert t.mem.Get(a) == b.Get(a);
      }
    }
    assert t.credits[..|t.credits| - 1] == s.credits;
    forall cb
      ensures Accepted(t.mem, cb) == Accepted(b, cb) + (if cb == w.chequebook then w.delta else 0)
    {
      if cb != w.chequebook && cb in b.binding {
        CreditMovesDelta(b, w.account, w.chequebook, w.cumulative, w.signature, b.binding[cb], cb);
      }
      if cb == w.chequebook && cb !in b.binding {
        assert cb !in b.Get(w.account).last;
      }
    }
  }

  lemma CrashAccount(cfg: Config, s: State, x: Address)
    requires cfg.params.creditRatio > 0 && Inv(cfg, s)
    ensures AccountInv(cfg, Step(cfg, s, Crash), x)
  {
    assert AccountInv(cfg, s, x);
    SumZero(Weights(cfg.params, map[], x, true));
  }

  lemma CrashCheques(cfg: Config, s: State)
    requires cfg.params.creditRatio > 0 && Inv(cfg, s)
    ensures ChequeInv(Step(cfg, s, Crash))
  {
    forall a
      ensures s.disk.Get(a).last == Settled(s).Get(a).last
    {
      assert AccountInv(cfg, s, a);
    }
    assert forall cb :: Accepted(s.disk, cb) == Accepted(Settled(s), cb);
  }

  /** Reserving, committing and dropping touch no cheque. */
  lemma QuietCheques(cfg: Config, s: State, e: Event)
    requires cfg.params.creditRatio > 0 && Inv(cfg, s)
    requires (e.Admit? || e.Commit? || e.Drop?) && Enabled(cfg, s, e)
    ensures ChequeInv(Step(cfg, s, e))
  {
    var t := Step(cfg, s, e);
    assert forall a :: t.mem.Get(a).last == s.mem.Get(a).last;
    assert forall cb :: Accepted(t.mem, cb) == Accepted(s.mem, cb);
  }

  lemma StepKeepsInv(cfg: Config, s: State, e: Event)
    requires cfg.params.creditRatio > 0 && Inv(cfg, s) && Enabled(cfg, s, e)
    ensures Inv(cfg, Step(cfg, s, e))
  {
    var t := Step(cfg, s, e);
    match e
    case Admit(_, _, _, _) =>
      forall a ensures AccountInv(cfg, t, a) { AdmitAccount(cfg, s, e, a); }
      QuietCheques(cfg, s, e);
    case Commit(_, _, _) =>
      assert AccountInv(cfg, s, s.live[e.id].account);
      forall a ensures AccountInv(cfg, t, a) {
        assert AccountInv(cfg, s, a);
        if a == s.live[e.id].account {
          CommitOwnAccount(cfg, s, e);
        } else {
          CommitOtherAccount(cfg, s, e, a);
        }
      }
      QuietCheques(cfg, s, e);
    case Drop(_) =>
      forall a ensures AccountInv(cfg, t, a) { DropAccount(cfg, s, e, a); }
      QuietCheques(cfg, s, e);
    case PayCredit(_, _, _, _) =>
      PayCreditKeeps(cfg, s, e);
    case PaySaved =>
      forall a ensures AccountInv(cfg, t, a) {
        assert AccountInv(cfg, s, a);
        PaySavedAccount(cfg, s, a);
      }
      PaySavedCheques(cfg, s);
    case PaySaveFailed =>
      PaySaveFailedKeeps(cfg, s);
    case Crash =>
      forall a ensures AccountInv(cfg, t, a) { CrashAccount(cfg, s, a); }
      CrashCheques(cfg, s);
  }

  lemma FreshInv(cfg: Config)
    ensures Inv(cfg, FRESH)
  {
    forall a
      ensures AccountInv(cfg, FRESH, a)
    {
      SumZero(Weights(cfg.params, map[], a, true));
      SumZero(Cumulatives(map[]));
    }
  }

  lemma {:induction false} RunKeepsInv(cfg: Config, s: State, es: seq<Event>)
    requires cfg.params.creditRatio > 0 && Inv(cfg, s) && Runs(cfg, s, es)
    ensures Inv(cfg, After(cfg, s, es))
    decreases |es|
  {
    if es != [] {
      StepKeepsInv(cfg, s, es[0]);
      RunKeepsInv(cfg, Step(cfg, s, es[0]), es[1..]);
    }
  }

  // ---- What a run bills, read off its events ---------------------------------

  /** Every live request belongs to the account it was admitted for. */
  predicate Owned(s: State, owners: map<nat, Address>) {
    forall id :: id in s.live ==> id in owners && owners[id] == s.live[id].account
  }

  /** The accounts requests were admitted for, after one more event. */
  function OwnersAfter(owners: map<nat, Address>, e: Event): map<nat, Address> {
    if e.Admit? then owners[e.id := e.account] else owners
  }

  /** What an event bills to `a`: the price of the bytes a request of its admitted. */
  function BillOf(p: Params, owners: map<nat, Address>, e: Event, a: Address): nat {
    if e.Commit? && e.id in owners && owners[e.id] == a then Price(p, e.billable) else 0
  }

  function BilledTo(p: Params, es: seq<Event>, owners: map<nat, Address>, a: Address): nat {
    if es == [] then 0
    else BillOf(p, owners, es[0], a) + BilledTo(p, es[1..], OwnersAfter(owners, es[0]), a)
  }

  lemma {:induction false} BillsArePriced(cfg: Config, s: State, es: seq<Event>, owners: map<nat, Address>, a: Address)
    requires cfg.params.creditRatio > 0 && Runs(cfg, s, es) && Owned(s, owners)
    ensures MapSums.Get(After(cfg, s, es).billed, a)
            == MapSums.Get(s.billed, a) + BilledTo(cfg.params, es, owners, a)
    decreases |es|
  {
    if es != [] {
      StepBills(cfg, s, es[0], owners, a);
      BillsArePriced(cfg, Step(cfg, s, es[0]), es[1..], OwnersAfter(owners, es[0]), a);
    }
  }

  lemma StepBills(cfg: Config, s: State, e: Event, owners: map<nat, Address>, a: Address)
    requires cfg.params.creditRatio > 0 && Enabled(cfg, s, e) && Owned(s, owners)
    ensures Owned(Step(cfg, s, e), OwnersAfter(owners, e))
    ensures MapSums.Get(Step(cfg, s, e).billed, a) == MapSums.Get(s.billed, a) + BillOf(cfg.params, owners, e, a)
  {
  }

  /** What of that has not reached the disk since the last write of the ledger. */
  function UnsavedTo(p: Params, es: seq<Event>, owners: map<nat, Address>, a: Address, sofar: nat): nat {
    if es == [] then sofar
    else UnsavedTo(p, es[1..], OwnersAfter(owners, es[0]), a, UnsavedAfter(p, owners, es[0], a, sofar))
  }

  function UnsavedAfter(p: Params, owners: map<nat, Address>, e: Event, a: Address, sofar: nat): nat {
    if e.PaySaved? || e.Crash? || (e.Commit? && e.saved) then 0 else sofar + BillOf(p, owners, e, a)
  }

  lemma CommitUnsaved(cfg: Config, s: State, e: Event, owners: map<nat, Address>, a: Address, sofar: nat)
    requires cfg.params.creditRatio > 0 && Enabled(cfg, s, e) && Owned(s, owners) && e.Commit?
    requires AccountInv(cfg, s, s.live[e.id].account) && Settled(s).Owed(a) == s.disk.Owed(a) + sofar
    ensures var t := Step(cfg, s, e);
            Settled(t).Owed(a) == t.disk.Owed(a) + UnsavedAfter(cfg.params, owners, e, a, sofar)
  {
    var who := s.live[e.id];
    LiveShare(cfg.params, s.live, e.id);
    PriceMono(cfg.params, e.billable, who.declared);
    CommitMoves(s.mem, who.account, Reservation(cfg.params, who), Price(cfg.params, e.billable), a);
  }

  lemma StepUnsaved(cfg: Config, s: State, e: Event, owners: map<nat, Address>, a: Address, sofar: nat)
    requires cfg.params.creditRatio > 0 && LockInv(s) && Enabled(cfg, s, e) && !e.Commit?
    requires Settled(s).Owed(a) == s.disk.Owed(a) + sofar
    ensures var t := Step(cfg, s, e);
            Settled(t).Owed(a) == t.disk.Owed(a) + UnsavedAfter(cfg.params, owners, e, a, sofar)
  {
    var t := Step(cfg, s, e);
    if e.PayCredit? {
      CreditAccepts(s.mem, e.account, e.chequebook, e.cumulative, e.signature);
      SameBooksEverywhere(Settled(t), Settled(s), a);
    } else if e.PaySaveFailed? {
      var w := s.lock.value;
      RollbackUndoesCredit(w.before, w.account, w.chequebook, w.cumulative, w.signature);
      SameBooksEverywhere(Settled(t), Settled(s), a);
    }
  }

  lemma {:induction false} RunUnsaved(cfg: Config, s: State, es: seq<Event>, owners: map<nat, Address>, a: Address,
                                      sofar: nat)
    requires cfg.params.creditRatio > 0 && Inv(cfg, s) && Runs(cfg, s, es) && Owned(s, owners)
    requires Settled(s).Owed(a) == s.disk.Owed(a) + sofar
    ensures var t := After(cfg, s, es);
            Settled(t).Owed(a) == t.disk.Owed(a) + UnsavedTo(cfg.params, es, owners, a, sofar)
    decreases |es|
  {
    if es != [] {
      if es[0].Commit? {
        assert AccountInv(cfg, s, s.live[es[0].id].account);
        CommitUnsaved(cfg, s, es[0], owners, a, sofar);
      } else {
        StepUnsaved(cfg, s, es[0], owners, a, sofar);
      }
      StepBills(cfg, s, es[0], owners, a);
      StepKeepsInv(cfg, s, es[0]);
      RunUnsaved(cfg, Step(cfg, s, es[0]), es[1..], OwnersAfter(owners, es[0]), a,
                 UnsavedAfter(cfg.params, owners, es[0], a, sofar));
    }
  }

  // ---- What every run guarantees -------------------------------------------

  /** Between operations, disk and memory hold the same cheques and bindings. */
  lemma DiskAndMemoryAgree(cfg: Config, es: seq<Event>, a: Address)
    requires cfg.params.creditRatio > 0 && Runs(cfg, FRESH, es) && After(cfg, FRESH, es).lock.None?
    ensures var s := After(cfg, FRESH, es);
            s.mem.Get(a).last == s.disk.Get(a).last && s.mem.binding == s.disk.binding
            && BindingMatches(s.mem)
  {
    FreshInv(cfg);
    RunKeepsInv(cfg, FRESH, es);
    assert AccountInv(cfg, After(cfg, FRESH, es), a);
  }

  /** A chequebook's accepted deltas sum to its last cumulative across restarts
      and failed writes, and presenting it again at or below any amount already
      accepted, by anyone, credits nothing. */
  lemma ChequeWorthItsDeltaOnce(cfg: Config, es: seq<Event>, i: nat, a: Address, c: nat, sig: Signature)
    requires cfg.params.creditRatio > 0 && Runs(cfg, FRESH, es)
    requires var s := After(cfg, FRESH, es);
             s.lock.None? && i < |s.credits| && c <= s.credits[i].cumulative
    ensures var s := After(cfg, FRESH, es);
            var cb := s.credits[i].chequebook;
            && DeltasOn(s.credits, cb) == Accepted(s.mem, cb)
            && s.mem.Credit(a, cb, c, sig).1.Err?
            && SameBooks(s.mem.Credit(a, cb, c, sig).0, s.mem)
  {
    FreshInv(cfg);
    RunKeepsInv(cfg, FRESH, es);
    var s := After(cfg, FRESH, es);
    CreditAccepts(s.mem, a, s.credits[i].chequebook, c, sig);
  }

  /** Conservation through crashes: debt, plus everything paid, plus what failed
      writes lost at restarts, is everything ever billed. */
  lemma NothingBilledIsLostSilently(cfg: Config, es: seq<Event>, a: Address)
    requires cfg.params.creditRatio > 0 && Runs(cfg, FRESH, es)
    ensures var s := After(cfg, FRESH, es);
            Settled(s).Owed(a) + Paid(Settled(s).Get(a).last) + MapSums.Get(s.forfeited, a)
              == BilledTo(cfg.params, es, map[], a)
  {
    FreshInv(cfg);
    RunKeepsInv(cfg, FRESH, es);
    BillsArePriced(cfg, FRESH, es, map[], a);
    assert AccountInv(cfg, After(cfg, FRESH, es), a);
  }

  /** What a restart does to one account, at any point of any run: the reservations
      go, the bills since the last write of the ledger are forfeited, no more and
      no less, and every cheque and binding stays. */
  lemma RestartForfeits(cfg: Config, es: seq<Event>, a: Address)
    requires cfg.params.creditRatio > 0 && Runs(cfg, FRESH, es)
    ensures var s := After(cfg, FRESH, es);
            var t := Step(cfg, s, Crash);
            var lost := MapSums.Get(t.forfeited, a) - MapSums.Get(s.forfeited, a);
            && 0 <= lost == Settled(s).Owed(a) - s.disk.Owed(a) == UnsavedTo(cfg.params, es, map[], a, 0)
            && t.mem.Get(a) == Settled(s).Get(a).(owed := Settled(s).Owed(a) - lost, reserved := 0)
            && t.mem.binding == Settled(s).binding
  {
    FreshInv(cfg);
    RunKeepsInv(cfg, FRESH, es);
    RunUnsaved(cfg, FRESH, es, map[], a, 0);
    assert AccountInv(cfg, After(cfg, FRESH, es), a);
  }

  predicate CrashFree(es: seq<Event>) { forall i :: 0 <= i < |es| ==> !es[i].Crash? }

  lemma {:induction false} ForfeitsOnlyAtCrashes(cfg: Config, s: State, es: seq<Event>)
    requires cfg.params.creditRatio > 0 && Runs(cfg, s, es) && CrashFree(es)
    ensures After(cfg, s, es).forfeited == s.forfeited
    decreases |es|
  {
    if es != [] {
      ForfeitsOnlyAtCrashes(cfg, Step(cfg, s, es[0]), es[1..]);
    }
  }

  /** Without a restart, what is owed and what was paid are exactly what was billed. */
  lemma CrashFreeConservation(cfg: Config, es: seq<Event>, a: Address)
    requires cfg.params.creditRatio > 0 && Runs(cfg, FRESH, es) && CrashFree(es)
    ensures var s := After(cfg, FRESH, es);
            Settled(s).Owed(a) + Paid(Settled(s).Get(a).last) == BilledTo(cfg.params, es, map[], a)
  {
    NothingBilledIsLostSilently(cfg, es, a);
    ForfeitsOnlyAtCrashes(cfg, FRESH, es);
  }

  /** The disk is current and nothing was ever lost from it. */
  ghost predicate Current(s: State) {
    forall a :: s.disk.Owed(a) == Settled(s).Owed(a) && MapSums.Get(s.forfeited, a) == 0
  }

  lemma SavedStepStaysCurrent(cfg: Config, s: State, e: Event)
    requires cfg.params.creditRatio > 0 && Inv(cfg, s) && Enabled(cfg, s, e) && Current(s)
    requires e.Commit? ==> e.saved
    ensures Current(Step(cfg, s, e))
  {
    var t := Step(cfg, s, e);
    if e.PayCredit? {
      CreditAccepts(s.mem, e.account, e.chequebook, e.cumulative, e.signature);
      assert SameBooks(Settled(t), Settled(s));
    }
    if e.PaySaveFailed? {
      var w := s.lock.value;
      RollbackUndoesCredit(w.before, w.account, w.chequebook, w.cumulative, w.signature);
      assert SameBooks(Settled(t), Settled(s));
    }
    forall a
      ensures t.disk.Owed(a) == Settled(t).Owed(a) && MapSums.Get(t.forfeited, a) == 0
    {
      assert s.disk.Owed(a) == Settled(s).Owed(a) && MapSums.Get(s.forfeited, a) == 0;
      if e.PayCredit? || e.PaySaveFailed? {
        SameBooksEverywhere(Settled(t), Settled(s), a);
      }
    }
  }

  predicate BillsSaved(es: seq<Event>) {
    forall i :: 0 <= i < |es| && es[i].Commit? ==> es[i].saved
  }

  lemma {:induction false} SavedRunStaysCurrent(cfg: Config, s: State, es: seq<Event>)
    requires cfg.params.creditRatio > 0 && Inv(cfg, s) && Runs(cfg, s, es) && Current(s) && BillsSaved(es)
    ensures Current(After(cfg, s, es))
    decreases |es|
  {
    if es != [] {
      SavedStepStaysCurrent(cfg, s, es[0]);
      StepKeepsInv(cfg, s, es[0]);
      SavedRunStaysCurrent(cfg, Step(cfg, s, es[0]), es[1..]);
    }
  }

  /** Restarts lose nothing as long as bills reach the disk: through any number of
      crashes and failed cheque writes, owed and paid are still exactly what was billed. */
  lemma DurableConservation(cfg: Config, es: seq<Event>, a: Address)
    requires cfg.params.creditRatio > 0 && Runs(cfg, FRESH, es) && BillsSaved(es)
    ensures var s := After(cfg, FRESH, es);
            && Settled(s).Owed(a) + Paid(Settled(s).Get(a).last) == BilledTo(cfg.params, es, map[], a)
            && s.disk.Owed(a) == Settled(s).Owed(a)
  {
    FreshInv(cfg);
    SavedRunStaysCurrent(cfg, FRESH, es);
    NothingBilledIsLostSilently(cfg, es, a);
  }

  /** Reservations are exactly the live requests', so none leaks and none clips,
      and after a restart there are none. */
  lemma ReservedIsLive(cfg: Config, es: seq<Event>, a: Address)
    requires cfg.params.creditRatio > 0 && Runs(cfg, FRESH, es) && After(cfg, FRESH, es).lock.None?
    ensures var s := After(cfg, FRESH, es);
            && s.mem.Reserved(a) == LiveTotal(cfg.params, s.live, a, true)
            && forall id :: id in s.live ==> Reservation(cfg.params, s.live[id]) <= s.mem.Reserved(s.live[id].account)
  {
    FreshInv(cfg);
    RunKeepsInv(cfg, FRESH, es);
    var s := After(cfg, FRESH, es);
    assert AccountInv(cfg, s, a);
    forall id | id in s.live
      ensures Reservation(cfg.params, s.live[id]) <= s.mem.Reserved(s.live[id].account)
    {
      assert AccountInv(cfg, s, s.live[id].account);
      LiveShare(cfg.params, s.live, id);
    }
  }

  /** What admission decides: under hard mode a request is refused exactly when debt,
      reservations and its price pass the ceiling, or their multiple by the ratio
      passes the batch's value; otherwise never. */
  lemma AdmitVerdict(cfg: Config, s: State, e: Event)
    requires cfg.params.creditRatio > 0 && e.Admit? && Enabled(cfg, s, e)
    ensures var n := s.mem.Owed(e.account) + s.mem.Reserved(e.account) + Price(cfg.params, e.declared);
            Step(cfg, s, e).live[e.id].refused <==>
              cfg.hard && (n > cfg.params.maxOutstanding || n * cfg.params.creditRatio > e.batchValue)
  {
    var n := s.mem.Owed(e.account) + s.mem.Reserved(e.account) + Price(cfg.params, e.declared);
    CreditLineExact(cfg.params, e.batchValue, n);
    ReserveMoves(s.mem, e.account, Price(cfg.params, e.declared), CreditLine(cfg.params, e.batchValue), e.account);
  }

  /** Debt and the reservations of requests not being refused stay within a line. */
  ghost predicate Within(cfg: Config, s: State, a: Address, line: nat) {
    Settled(s).Owed(a) + LiveTotal(cfg.params, s.live, a, false) <= line
  }

  lemma AdmitWithin(cfg: Config, s: State, e: Event, a: Address, line: nat)
    requires cfg.params.creditRatio > 0 && cfg.hard && e.Admit? && Enabled(cfg, s, e)
    requires AccountInv(cfg, s, a) && Within(cfg, s, a, line) && CreditLine(cfg.params, e.batchValue) <= line
    ensures Within(cfg, Step(cfg, s, e), a, line)
  {
    LiveAdd(cfg.params, s.live, e.id, Step(cfg, s, e).live[e.id], a, false);
    LiveSplit(cfg.params, s.live, a);
    ReserveMoves(s.mem, e.account, Price(cfg.params, e.declared), CreditLine(cfg.params, e.batchValue), a);
  }

  lemma CommitWithin(cfg: Config, s: State, e: Event, a: Address, line: nat)
    requires cfg.params.creditRatio > 0 && e.Commit? && Enabled(cfg, s, e)
    requires AccountInv(cfg, s, s.live[e.id].account) && Within(cfg, s, a, line)
    ensures Within(cfg, Step(cfg, s, e), a, line)
  {
    var who := s.live[e.id];
    LiveDrop(cfg.params, s.live, e.id, a, false);
    LiveShare(cfg.params, s.live, e.id);
    PriceMono(cfg.params, e.billable, who.declared);
    CommitMoves(s.mem, who.account, Reservation(cfg.params, who), Price(cfg.params, e.billable), a);
  }

  lemma DropWithin(cfg: Config, s: State, e: Event, a: Address, line: nat)
    requires cfg.params.creditRatio > 0 && e.Drop? && Enabled(cfg, s, e) && Within(cfg, s, a, line)
    ensures Within(cfg, Step(cfg, s, e), a, line)
  {
    LiveDrop(cfg.params, s.live, e.id, a, false);
    ReleaseMoves(s.mem, s.live[e.id].account, Reservation(cfg.params, s.live[e.id]), a);
  }

  lemma OtherWithin(cfg: Config, s: State, e: Event, a: Address, line: nat)
    requires cfg.params.creditRatio > 0 && Inv(cfg, s) && Enabled(cfg, s, e) && Within(cfg, s, a, line)
    requires !e.Admit? && !e.Commit? && !e.Drop?
    ensures Within(cfg, Step(cfg, s, e), a, line)
  {
    var t := Step(cfg, s, e);
    assert AccountInv(cfg, s, a);
    if e.PayCredit? {
      CreditAccepts(s.mem, e.account, e.chequebook, e.cumulative, e.signature);
      SameBooksEverywhere(Settled(t), Settled(s), a);
    } else if e.Crash? {
      SumZero(Weights(cfg.params, map[], a, false));
    } else {
      var w := s.lock.value;
      RollbackUndoesCredit(w.before, w.account, w.chequebook, w.cumulative, w.signature);
      CreditMovesDelta(w.before, w.account, w.chequebook, w.cumulative, w.signature, a, w.chequebook);
      if e.PaySaveFailed? {
        SameBooksEverywhere(Settled(t), Settled(s), a);
      }
    }
  }

  /** Every admission's line is within `line`. */
  predicate LinesWithin(cfg: Config, es: seq<Event>, line: nat)
    requires cfg.params.creditRatio > 0
  {
    forall i :: 0 <= i < |es| && es[i].Admit? ==> CreditLine(cfg.params, es[i].batchValue) <= line
  }

  lemma {:induction false} RunWithin(cfg: Config, s: State, es: seq<Event>, a: Address, line: nat)
    requires cfg.params.creditRatio > 0 && cfg.hard && Inv(cfg, s) && Runs(cfg, s, es)
    requires Within(cfg, s, a, line) && LinesWithin(cfg, es, line)
    ensures Within(cfg, After(cfg, s, es), a, line)
    decreases |es|
  {
    if es != [] {
      var e := es[0];
      if e.Admit? {
        assert AccountInv(cfg, s, a);
        AdmitWithin(cfg, s, e, a, line);
      } else if e.Commit? {
        assert AccountInv(cfg, s, s.live[e.id].account);
        CommitWithin(cfg, s, e, a, line);
      } else if e.Drop? {
        DropWithin(cfg, s, e, a, line);
      } else {
        OtherWithin(cfg, s, e, a, line);
      }
      StepKeepsInv(cfg, s, e);
      RunWithin(cfg, Step(cfg, s, e), es[1..], a, line);
    }
  }

  lemma FreshWithin(cfg: Config, es: seq<Event>, a: Address, line: nat)
    requires cfg.params.creditRatio > 0 && cfg.hard && Runs(cfg, FRESH, es) && LinesWithin(cfg, es, line)
    ensures Within(cfg, After(cfg, FRESH, es), a, line)
  {
    FreshInv(cfg);
    SumZero(Weights(cfg.params, map[], a, false));
    RunWithin(cfg, FRESH, es, a, line);
  }

  /** Under hard mode an account's debt and admitted requests never pass the
      global ceiling, whatever mix of per-batch lines they were admitted under. */
  lemma ExposureBelowCeiling(cfg: Config, es: seq<Event>, a: Address)
    requires cfg.params.creditRatio > 0 && cfg.hard && Runs(cfg, FRESH, es)
    ensures var s := After(cfg, FRESH, es);
            Settled(s).Owed(a) + LiveTotal(cfg.params, s.live, a, false) <= cfg.params.maxOutstanding
  {
    FreshWithin(cfg, es, a, cfg.params.maxOutstanding);
  }

  /** Nor, times the credit ratio, the value of the richest batch they were admitted for. */
  lemma ExposureBelowBatchValue(cfg: Config, es: seq<Event>, a: Address, richest: nat)
    requires cfg.params.creditRatio > 0 && cfg.hard && Runs(cfg, FRESH, es)
    requires forall i :: 0 <= i < |es| && es[i].Admit? ==> es[i].batchValue <= richest
    ensures var s := After(cfg, FRESH, es);
            (Settled(s).Owed(a) + LiveTotal(cfg.params, s.live, a, false)) * cfg.params.creditRatio <= richest
  {
    var line := CreditLine(cfg.params, richest);
    forall i | 0 <= i < |es| && es[i].Admit?
      ensures CreditLine(cfg.params, es[i].batchValue) <= line
    {
      LineGrows(cfg.params, es[i].batchValue, richest);
    }
    FreshWithin(cfg, es, a, line);
    var s := After(cfg, FRESH, es);
    CreditLineExact(cfg.params, richest, Settled(s).Owed(a) + LiveTotal(cfg.params, s.live, a, false));
  }

  lemma LineGrows(p: Params, v: nat, w: nat)
    requires p.creditRatio > 0 && v <= w
    ensures CreditLine(p, v) <= CreditLine(p, w)
  {
    CreditLineExact(p, v, CreditLine(p, v));
    CreditLineExact(p, w, CreditLine(p, v));
  }

  predicate DeclaredWithin(s: State) {
    forall id :: id in s.live ==> s.live[id].declared <= PUSH_MAX_BODY
  }

  lemma {:induction false} DeclaredStaysWithin(cfg: Config, s: State, es: seq<Event>)
    requires cfg.params.creditRatio > 0 && Runs(cfg, s, es) && DeclaredWithin(s)
    ensures DeclaredWithin(After(cfg, s, es))
    decreases |es|
  {
    if es != [] {
      DeclaredStaysWithin(cfg, Step(cfg, s, es[0]), es[1..]);
    }
  }

  /** Under hard mode an admission stays within 128 bits as long as the ceiling and a
      full body for every live request and itself do. */
  lemma AdmissionFits(cfg: Config, es: seq<Event>, a: Address, declared: nat)
    requires cfg.params.creditRatio > 0 && cfg.hard && Runs(cfg, FRESH, es) && declared <= PUSH_MAX_BODY
    requires var s := After(cfg, FRESH, es);
             s.lock.None? && cfg.params.maxOutstanding + (|s.live| + 1) * Price(cfg.params, PUSH_MAX_BODY) <= U128_MAX
    ensures var s := After(cfg, FRESH, es);
            s.mem.Owed(a) + s.mem.Reserved(a) + Price(cfg.params, declared) <= U128_MAX
  {
    var s := After(cfg, FRESH, es);
    var full := Price(cfg.params, PUSH_MAX_BODY);
    FreshInv(cfg);
    RunKeepsInv(cfg, FRESH, es);
    assert AccountInv(cfg, s, a);
    ExposureBelowCeiling(cfg, es, a);
    DeclaredStaysWithin(cfg, FRESH, es);
    LiveAtMost(cfg.params, s, a, full);
    PriceMono(cfg.params, declared, PUSH_MAX_BODY);
    assert (|s.live| + 1) * full == |s.live| * full + full;
  }

  lemma LiveAtMost(p: Params, s: State, a: Address, full: nat)
    requires DeclaredWithin(s) && full == Price(p, PUSH_MAX_BODY)
    ensures LiveTotal(p, s.live, a, true) <= |s.live| * full
  {
    var w := Weights(p, s.live, a, true);
    forall id | id in w
      ensures w[id] <= full
    {
      PriceMono(p, s.live[id].declared, PUSH_MAX_BODY);
    }
    assert w.Keys == s.live.Keys;
    SumAtMost(w, full);
  }

  // ---- The locked operation ------------------------------------------------

  /** The relay's cheque endpoint: credit, write through, undo on a failed write. */
  class Metered {
    const ledger: Ledger
    var disk: Books

    constructor (ledger: Ledger)
      ensures this.ledger == ledger && disk == ledger.View().Durable()
    {
      this.ledger := ledger;
      disk := Books(ledger.accounts, ledger.binding).Durable();
    }

    /** An accepted cheque is durable on return; a refused one, or one whose
        write failed, changes no answer in memory and nothing on disk. */
    method Credit(a: Address, cb: Address, cumulative: nat, sig: Signature, writable: bool)
      returns (r: Result<nat, LedgerError>)
      modifies this, ledger
      ensures var judged := old(ledger.View()).Credit(a, cb, cumulative, sig);
              r == if judged.1.Ok? && !writable then Err(Store) else judged.1
      ensures r.Ok? ==>
                && ledger.View() == old(ledger.View()).Credit(a, cb, cumulative, sig).0
                && disk == ledger.View().Durable()
      ensures r.Err? ==> SameBooks(ledger.View(), old(ledger.View())) && disk == old(disk)
    {
      ghost var before := ledger.View();
      var x := if a in ledger.accounts then ledger.accounts[a] else NEW_ACCOUNT;
      var prevOwed := x.owed;
      var prevHeld := if cb in x.last then Some(x.last[cb]) else None;
      var hadBinding := cb in ledger.binding;
      r := ledger.Credit(a, cb, cumulative, sig);
      CreditAccepts(before, a, cb, cumulative, sig);
      if r.Err? {
        return;
      }
      if writable {
        disk := Books(ledger.accounts, ledger.binding).Durable();
      } else {
        RollbackUndoesCredit(before, a, cb, cumulative, sig);
        ledger.RollbackCredit(a, cb, prevOwed, prevHeld, hadBinding);
        r := Err(Store);
      }
    }
  }
}
