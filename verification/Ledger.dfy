/** The relay's payment ledger: what each account owes and has reserved, the
    newest cheque held per chequebook, and which account a chequebook pays for. */
module Ledgers {
  import opened Arith

  datatype Address = Address(bytes: seq<byte>)

  datatype Signature = Signature(bytes: seq<byte>)

  const MAX_CUMULATIVE: nat := 1_000_000_000_000_000_000_000_000_000_000

  datatype LedgerError =
    | NotIncreasing(got: nat, have: nat)
    | ChequebookBound(chequebook: Address)
    | Absurd(cumulative: nat)
    | Overpayment(credits: nat, owed: nat)
    | Store

  datatype Admission = Admission(reserved: nat, outstanding: nat, cap: nat, overCap: bool)

  datatype HeldCheque = HeldCheque(cumulative: nat, signature: Signature)

  datatype Account = Account(owed: nat, reserved: nat, last: map<Address, HeldCheque>)

  const NEW_ACCOUNT := Account(0, 0, map[])

  /** The ledger's contents as a value. */
  datatype Books = Books(accounts: map<Address, Account>, binding: map<Address, Address>) {

    /** A missing entry reads as a new account in every query. */
    function Get(a: Address): Account {
      if a in accounts then accounts[a] else NEW_ACCOUNT
    }

    function Put(a: Address, x: Account): Books {
      this.(accounts := accounts[a := x])
    }

    function Owed(a: Address): nat { Get(a).owed }

    function Reserved(a: Address): nat { Get(a).reserved }

    function Outstanding(a: Address): nat { SatAdd(Get(a).owed, Get(a).reserved) }

    function Held(a: Address, cb: Address): Option<HeldCheque> {
      if cb in Get(a).last then Some(Get(a).last[cb]) else None
    }

    function LastCumulative(a: Address, cb: Address): nat {
      match Held(a, cb)
      case Some(h) => h.cumulative
      case None => 0
    }

    function HadBinding(cb: Address): bool { cb in binding }

    function Reserve(a: Address, amount: nat, cap: nat): (Books, Admission) {
      var x := Get(a).(reserved := SatAdd(Get(a).reserved, amount));
      var outstanding := SatAdd(x.owed, x.reserved);
      (Put(a, x), Admission(amount, outstanding, cap, outstanding > cap))
    }

    function Release(a: Address, amount: nat): Books {
      if a in accounts
      then Put(a, Get(a).(reserved := SatSub(Get(a).reserved, amount)))
      else this
    }

    function Commit(a: Address, reserved: nat, billed: nat): Books {
      Put(a, Get(a).(reserved := SatSub(Get(a).reserved, reserved),
                     owed := SatAdd(Get(a).owed, billed)))
    }

    /** The entry is created before the cheque is judged, so a refusal past the
        binding check can leave a new empty account behind. */
    function Credit(a: Address, cb: Address, cumulative: nat, sig: Signature): (Books, Result<nat, LedgerError>) {
      if cumulative > MAX_CUMULATIVE then
        (this, Err(Absurd(cumulative)))
      else if cb in binding && binding[cb] != a then
        (this, Err(ChequebookBound(cb)))
      else
        var x := Get(a);
        var have := LastCumulative(a, cb);
        if cumulative <= have then
          (Put(a, x), Err(NotIncreasing(cumulative, have)))
        else if cumulative - have > x.owed then
          (Put(a, x), Err(Overpayment(cumulative - have, x.owed)))
        else
          var y := x.(last := x.last[cb := HeldCheque(cumulative, sig)],
                      owed := x.owed - (cumulative - have));
          (Put(a, y).(binding := binding[cb := a]), Ok(cumulative - have))
    }

    function RollbackCredit(a: Address, cb: Address, prevOwed: nat, prevHeld: Option<HeldCheque>,
                            hadBinding: bool): Books {
      var restored :=
        if a in accounts then
          var last := match prevHeld
            case Some(h) => accounts[a].last[cb := h]
            case None => accounts[a].last - {cb};
          Put(a, accounts[a].(owed := prevOwed, last := last))
        else this;
      if hadBinding then restored else restored.(binding := restored.binding - {cb})
    }

    /** What survives a restart: reservations are dropped, and accounts with
        nothing to remember are not written. */
    function Durable(): Books {
      Books(Kept(accounts), binding)
    }
  }

  predicate Remembered(x: Account) { x.owed > 0 || x.last != map[] }

  function Kept(accounts: map<Address, Account>): map<Address, Account> {
    map a | a in accounts && Remembered(accounts[a]) :: accounts[a].(reserved := 0)
  }

  /** Same answer to every query. */
  predicate SameBooks(b: Books, c: Books) {
    b.binding == c.binding
    && forall a :: a in b.accounts.Keys + c.accounts.Keys ==> b.Get(a) == c.Get(a)
  }

  /** A chequebook is held under exactly the account it is bound to. */
  ghost predicate BindingMatches(b: Books) {
    forall a, cb :: cb in b.Get(a).last <==> (cb in b.binding && b.binding[cb] == a)
  }

  lemma SameBooksEverywhere(b: Books, c: Books, a: Address)
    requires SameBooks(b, c)
    ensures b.Get(a) == c.Get(a)
  {
  }

  /** A cheque is accepted exactly when it is plausible, its chequebook is free
      or already this account's, and it lies above what was accepted but not
      above what is owed. */
  lemma CreditAccepts(b: Books, a: Address, cb: Address, c: nat, sig: Signature)
    ensures b.Credit(a, cb, c, sig).1.Ok? <==>
              && c <= MAX_CUMULATIVE
              && (cb in b.binding ==> b.binding[cb] == a)
              && b.LastCumulative(a, cb) < c <= b.LastCumulative(a, cb) + b.Owed(a)
    ensures b.Credit(a, cb, c, sig).1.Err? ==> SameBooks(b.Credit(a, cb, c, sig).0, b)
  {
  }

  /** Which refusal a cheque meets, in the order they are judged, and its figures. */
  lemma CreditRefuses(b: Books, a: Address, cb: Address, c: nat, sig: Signature)
    ensures var r := b.Credit(a, cb, c, sig).1;
            var bound := cb in b.binding && b.binding[cb] != a;
            var have := b.LastCumulative(a, cb);
            && (r == Err(Absurd(c)) <==> c > MAX_CUMULATIVE)
            && (r == Err(ChequebookBound(cb)) <==> c <= MAX_CUMULATIVE && bound)
            && (r == Err(NotIncreasing(c, have)) <==> c <= MAX_CUMULATIVE && !bound && c <= have)
            && (r == Err(Overpayment(SatSub(c, have), b.Owed(a))) <==> c <= MAX_CUMULATIVE && !bound && c > have + b.Owed(a))
  {
  }

  /** An accepted cheque moves its delta from debt to the held cumulative of one
      account, and changes the answer to no other query. */
  lemma CreditMovesDelta(b: Books, a: Address, cb: Address, c: nat, sig: Signature, x: Address, y: Address)
    requires b.Credit(a, cb, c, sig).1.Ok?
    ensures var (after, r) := b.Credit(a, cb, c, sig);
            && r.value > 0
            && after.LastCumulative(a, cb) == c == b.LastCumulative(a, cb) + r.value
            && after.Owed(a) + r.value == b.Owed(a)
            && after.Held(a, cb) == Some(HeldCheque(c, sig))
            && after.Reserved(x) == b.Reserved(x)
            && (x != a ==> after.Get(x) == b.Get(x))
            && (y != cb ==> after.Held(x, y) == b.Held(x, y))
            && after.binding == b.binding[cb := a]
  {
  }

  /** Undoing an accepted cheque with the readings taken before it restores the
      answer to every query. */
  lemma RollbackUndoesCredit(b: Books, a: Address, cb: Address, c: nat, sig: Signature)
    requires b.Credit(a, cb, c, sig).1.Ok?
    ensures SameBooks(
              b.Credit(a, cb, c, sig).0.RollbackCredit(a, cb, b.Owed(a), b.Held(a, cb), b.HadBinding(cb)), b)
  {
    var after := b.Credit(a, cb, c, sig).0;
    var back := after.RollbackCredit(a, cb, b.Owed(a), b.Held(a, cb), b.HadBinding(cb));
    assert back.binding == b.binding;
    assert back.Get(a).last == b.Get(a).last;
  }

  /** Within 128 bits a reservation adds its amount, and is over the cap exactly when
      debt and reservations pass it. */
  lemma ReserveMoves(b: Books, who: Address, amount: nat, cap: nat, x: Address)
    requires b.Owed(who) + b.Reserved(who) + amount <= U128_MAX
    ensures var (after, adm) := b.Reserve(who, amount, cap);
            && after.Get(x) == (if x == who then b.Get(x).(reserved := b.Reserved(x) + amount) else b.Get(x))
            && after.binding == b.binding
            && (adm.overCap <==> b.Owed(who) + b.Reserved(who) + amount > cap)
  {
  }

  /** What an admission reports: the amount, the saturated sum it came to, the cap, and
      whether the one passes the other. */
  lemma ReserveReports(b: Books, who: Address, amount: nat, cap: nat)
    ensures var adm := b.Reserve(who, amount, cap).1;
            && adm.reserved == amount && adm.cap == cap
            && adm.outstanding == Min(b.Owed(who) + b.Reserved(who) + amount, U128_MAX)
            && (adm.overCap <==> adm.outstanding > cap)
  {
  }

  /** Giving back takes what is reserved, up to the amount, and touches nothing else. */
  lemma ReleaseMoves(b: Books, who: Address, amount: nat, x: Address)
    ensures var after := b.Release(who, amount);
            && after.Get(x) == (if x == who then b.Get(x).(reserved := after.Reserved(x)) else b.Get(x))
            && after.Reserved(who) + Min(amount, b.Reserved(who)) == b.Reserved(who)
            && after.binding == b.binding
  {
  }

  /** Committing takes the reservation away and adds the bill, exactly. */
  lemma CommitMoves(b: Books, who: Address, reservation: nat, bill: nat, x: Address)
    requires reservation <= b.Reserved(who) && b.Owed(who) + bill <= U128_MAX
    ensures var after := b.Commit(who, reservation, bill);
            && after.Get(x) == (if x == who
                                then b.Get(x).(owed := b.Owed(x) + bill, reserved := b.Reserved(x) - reservation)
                                else b.Get(x))
            && after.binding == b.binding
  {
  }

  /** Reserving and then releasing or committing the same amount gives the
      reservation back, and a bill lands in full, exactly when neither sum
      overruns 128 bits. */
  lemma ReserveThenReturn(b: Books, a: Address, amount: u128, cap: nat, billed: nat)
    requires b.Reserved(a) <= U128_MAX
    ensures var held := b.Reserve(a, amount, cap).0;
            && (SameBooks(held.Release(a, amount), b) <==> b.Reserved(a) + amount <= U128_MAX)
            && (held.Commit(a, amount, billed).Reserved(a) == b.Reserved(a) <==> b.Reserved(a) + amount <= U128_MAX)
            && (held.Commit(a, amount, billed).Owed(a) == b.Owed(a) + billed <==> b.Owed(a) + billed <= U128_MAX)
  {
    var held := b.Reserve(a, amount, cap).0;
    assert a in held.accounts;
    assert held.Release(a, amount).Get(a).reserved == b.Reserved(a) <==> b.Reserved(a) + amount <= U128_MAX;
  }

  /** The ledger itself: two maps updated in place under one lock. */
  class Ledger {
    var accounts: map<Address, Account>
    var binding: map<Address, Address>

    ghost function View(): Books
      reads this
    {
      Books(accounts, binding)
    }

    constructor (b: Books)
      ensures View() == b
    {
      accounts, binding := b.accounts, b.binding;
    }

    method Reserve(a: Address, amount: nat, cap: nat) returns (adm: Admission)
      modifies this
      ensures (View(), adm) == old(View()).Reserve(a, amount, cap)
    {
      if a !in accounts {
        accounts := accounts[a := NEW_ACCOUNT];
      }
      accounts := accounts[a := accounts[a].(reserved := SatAdd(accounts[a].reserved, amount))];
      var outstanding := SatAdd(accounts[a].owed, accounts[a].reserved);
      adm := Admission(amount, outstanding, cap, outstanding > cap);
      assert accounts == old(accounts)[a := accounts[a]];
    }

    method Release(a: Address, amount: nat)
      modifies this
      ensures View() == old(View()).Release(a, amount)
    {
      if a in accounts {
        accounts := accounts[a := accounts[a].(reserved := SatSub(accounts[a].reserved, amount))];
      }
    }

    method Commit(a: Address, reserved: nat, billed: nat)
      modifies this
      ensures View() == old(View()).Commit(a, reserved, billed)
    {
      var x := if a in accounts then accounts[a] else NEW_ACCOUNT;
      x := x.(reserved := SatSub(x.reserved, reserved));
      x := x.(owed := SatAdd(x.owed, billed));
      accounts := accounts[a := x];
    }

    method Credit(a: Address, cb: Address, cumulative: nat, sig: Signature) returns (r: Result<nat, LedgerError>)
      modifies this
      ensures (View(), r) == old(View()).Credit(a, cb, cumulative, sig)
    {
      if cumulative > MAX_CUMULATIVE {
        return Err(Absurd(cumulative));
      }
      if cb in binding && binding[cb] != a {
        return Err(ChequebookBound(cb));
      }
      if a !in accounts {
        accounts := accounts[a := NEW_ACCOUNT];
      }
      var have := if cb in accounts[a].last then accounts[a].last[cb].cumulative else 0;
      if cumulative <= have {
        assert accounts == old(accounts)[a := accounts[a]];
        return Err(NotIncreasing(cumulative, have));
      }
      var delta := cumulative - have;
      if delta > accounts[a].owed {
        assert accounts == old(accounts)[a := accounts[a]];
        return Err(Overpayment(delta, accounts[a].owed));
      }
      accounts := accounts[a := accounts[a].(last := accounts[a].last[cb := HeldCheque(cumulative, sig)])];
      accounts := accounts[a := accounts[a].(owed := accounts[a].owed - delta)];
      binding := binding[cb := a];
      r := Ok(delta);
      assert accounts == old(accounts)[a := accounts[a]];
    }

    method RollbackCredit(a: Address, cb: Address, prevOwed: nat, prevHeld: Option<HeldCheque>, hadBinding: bool)
      modifies this
      ensures View() == old(View()).RollbackCredit(a, cb, prevOwed, prevHeld, hadBinding)
    {
      if a in accounts {
        accounts := accounts[a := accounts[a].(owed := prevOwed)];
        match prevHeld {
          case Some(h) =>
            accounts := accounts[a := accounts[a].(last := accounts[a].last[cb := h])];
          case None =>
            accounts := accounts[a := accounts[a].(last := accounts[a].last - {cb})];
        }
      }
      if !hadBinding {
        binding := binding - {cb};
      }
    }
  }
}
