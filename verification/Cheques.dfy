/** The client's cheque store: one running total per payee, all of them claims on
    the balance of a single chequebook. */
module Cheques {
  import opened Arith
  import opened MapSums

  type Payouts = map<string, nat>

  datatype StoreError = Overflow

  function LowerChar(c: char): char {
    if 'A' <= c <= 'Z' then (c as int + 32) as char else c
  }

  function Lower(s: string): (r: string)
    ensures |r| == |s|
    ensures forall i :: 0 <= i < |s| ==> r[i] == LowerChar(s[i])
  {
    if s == "" then "" else [LowerChar(s[0])] + Lower(s[1..])
  }

  function UpperChar(c: char): char {
    if 'a' <= c <= 'z' then (c as int - 32) as char else c
  }

  /** A key and its upper-case spelling are one key. */
  lemma {:induction false} CaseDoesNotMatter(s: string, t: string)
    requires |s| == |t| && forall i :: 0 <= i < |s| ==> t[i] == UpperChar(s[i])
    ensures Lower(s) == Lower(t)
    ensures forall i :: 0 <= i < |s| ==> !('A' <= Lower(s)[i] <= 'Z')
  {
    forall i | 0 <= i < |s|
      ensures Lower(s)[i] == Lower(t)[i] && !('A' <= Lower(s)[i] <= 'Z')
    {
    }
  }

  predicate Bounded(p: Payouts) { forall k :: k in p ==> p[k] <= U128_MAX }

  function Cumulative(p: Payouts, key: string): nat {
    if Lower(key) in p then p[Lower(key)] else 0
  }

  /** What the chequebook would owe in all after `key` is raised to `cumulative`. */
  ghost function TotalAfter(p: Payouts, key: string, cumulative: nat): nat {
    Sum(p[Lower(key) := cumulative])
  }

  lemma TotalAfterMoves(p: Payouts, key: string, cumulative: nat)
    ensures TotalAfter(p, key, cumulative) + Cumulative(p, key) == Sum(p) + cumulative
    ensures Cumulative(p, key) <= Sum(p)
  {
    SumUpdate(p, Lower(key), cumulative);
    SumUpdate(p, Lower(key), 0);
  }

  /** The saturating test the source applies. */
  function Exceeds(total: nat, own: nat, cumulative: nat, balance: nat): bool {
    SatAdd(SatSub(total, own), cumulative) > balance
  }

  /** The gate's answer is right for every raise unless the balance is the largest
      representable one and the true total is not representable: then, and only
      then, saturation lets an uncovered cheque through. */
  lemma GateIsExact(p: Payouts, key: string, cumulative: nat, balance: nat)
    requires Bounded(p) && cumulative <= U128_MAX && balance <= U128_MAX
    requires Cumulative(p, key) <= cumulative
    ensures Exceeds(Min(Sum(p), U128_MAX), Cumulative(p, key), cumulative, balance)
              == (TotalAfter(p, key, cumulative) > balance)
            <==> balance < U128_MAX || TotalAfter(p, key, cumulative) <= U128_MAX
  {
    TotalAfterMoves(p, key, cumulative);
  }

  /** A lowered cumulative over unrepresentable totals can also fool the gate, but
      never towards refusing what fits. */
  lemma GateRefusesOnlyExcess(p: Payouts, key: string, cumulative: nat, balance: nat)
    requires Bounded(p)
    ensures Exceeds(Min(Sum(p), U128_MAX), Cumulative(p, key), cumulative, balance)
            ==> TotalAfter(p, key, cumulative) > balance
  {
    TotalAfterMoves(p, key, cumulative);
  }

  class ChequeStore {
    var payouts: Payouts

    ghost predicate Valid()
      reads this
    {
      Bounded(payouts)
    }

    constructor ()
      ensures Valid() && payouts == map[]
    {
      payouts := map[];
    }

    /** Saturating addition over the payees, in whatever order they are visited,
        is the saturated sum. */
    method TotalIssued() returns (total: nat)
      ensures total == Min(Sum(payouts), U128_MAX)
    {
      total := 0;
      var left := payouts;
      while left != map[]
        invariant SatAdd(total, Sum(left)) == Min(Sum(payouts), U128_MAX)
        invariant total <= U128_MAX
        decreases left.Keys
      {
        assert left.Keys != {};
        var k :| k in left.Keys;
        SumRemove(left, k);
        assert (left - {k}).Keys == left.Keys - {k};
        total := SatAdd(total, left[k]);
        left := left - {k};
      }
    }

    method WouldExceedBalance(key: string, cumulative: u128, balance: u128) returns (exceeds: bool)
      ensures exceeds == Exceeds(Min(Sum(payouts), U128_MAX), Cumulative(payouts, key), cumulative, balance)
      ensures Valid() && Cumulative(payouts, key) <= cumulative && balance < U128_MAX ==>
                (exceeds <==> TotalAfter(payouts, key, cumulative) > balance)
    {
      if Valid() && Cumulative(payouts, key) <= cumulative {
        GateIsExact(payouts, key, cumulative, balance);
      }
      var total := TotalIssued();
      exceeds := SatAdd(SatSub(total, Cumulative(payouts, key)), cumulative) > balance;
    }

    method SetCumulative(key: string, cumulative: nat) returns (r: Result<(), StoreError>)
      requires Valid() && cumulative <= U128_MAX
      modifies this
      ensures Valid()
      ensures r.Ok? <==> old(Cumulative(payouts, key)) <= cumulative
      ensures payouts == if r.Ok? then old(payouts)[Lower(key) := cumulative] else old(payouts)
    {
      if cumulative < Cumulative(payouts, key) {
        return Err(Overflow);
      }
      payouts := payouts[Lower(key) := cumulative];
      r := Ok(());
    }

    method BumpAndGet(key: string, delta: nat) returns (r: Result<nat, StoreError>)
      requires Valid()
      modifies this
      ensures Valid()
      ensures r.Ok? <==> old(Cumulative(payouts, key)) + delta <= U128_MAX
      ensures payouts == Bumped(old(payouts), key, delta)
      ensures r.Ok? ==> r.value == old(Cumulative(payouts, key)) + delta == Cumulative(payouts, key)
    {
      var next := Cumulative(payouts, key) + delta;
      if next > U128_MAX {
        return Err(Overflow);
      }
      payouts := payouts[Lower(key) := next];
      r := Ok(next);
    }

    /** The gate and the write a payment makes under one lock once its cheque has
        been accepted. Below the largest balance it records exactly the raises the
        chequebook can cover. */
    method RecordCheque(key: string, cumulative: u128, balance: u128) returns (recorded: bool)
      requires Valid()
      modifies this
      ensures Valid()
      ensures recorded <==> Passes(old(payouts), key, cumulative, balance)
      ensures payouts == Recorded(old(payouts), key, cumulative, balance)
      ensures balance < U128_MAX ==> (recorded <==> Covered(old(payouts), key, cumulative, balance))
    {
      PassesExactly(payouts, key, cumulative, balance);
      var exceeds := WouldExceedBalance(key, cumulative, balance);
      if exceeds {
        return false;
      }
      var r := SetCumulative(key, cumulative);
      recorded := r.Ok?;
    }
  }

  /** The raise gets past both the saturating gate and the refusal to fall. */
  ghost predicate Passes(p: Payouts, key: string, cumulative: nat, balance: nat) {
    && !Exceeds(Min(Sum(p), U128_MAX), Cumulative(p, key), cumulative, balance)
    && Cumulative(p, key) <= cumulative
  }

  /** The raise is one, and leaves the whole of what is owed within the balance. */
  ghost predicate Covered(p: Payouts, key: string, cumulative: nat, balance: nat) {
    Cumulative(p, key) <= cumulative && TotalAfter(p, key, cumulative) <= balance
  }

  ghost function Recorded(p: Payouts, key: string, cumulative: nat, balance: nat): Payouts {
    if Passes(p, key, cumulative, balance) then p[Lower(key) := cumulative] else p
  }

  lemma PassesExactly(p: Payouts, key: string, cumulative: u128, balance: u128)
    requires Bounded(p)
    ensures Covered(p, key, cumulative, balance) ==> Passes(p, key, cumulative, balance)
    ensures balance < U128_MAX && Passes(p, key, cumulative, balance) ==> Covered(p, key, cumulative, balance)
  {
    if Cumulative(p, key) <= cumulative {
      GateIsExact(p, key, cumulative, balance);
      GateRefusesOnlyExcess(p, key, cumulative, balance);
    }
  }

  function Bumped(p: Payouts, key: string, delta: nat): Payouts {
    if Cumulative(p, key) + delta <= U128_MAX then p[Lower(key) := Cumulative(p, key) + delta] else p
  }

  // ---- Runs ----------------------------------------------------------------

  /** Lanes record relay cheques through the gate; the bee settlement path bumps
      its peers in the same store without one. */
  datatype Event = Record(key: string, cumulative: u128) | Bump(key: string, delta: u128)

  ghost function Step(p: Payouts, e: Event, balance: u128): Payouts {
    match e
    case Record(key, cumulative) => Recorded(p, key, cumulative, balance)
    case Bump(key, delta) => Bumped(p, key, delta)
  }

  ghost function After(p: Payouts, run: seq<Event>, balance: u128): Payouts {
    if run == [] then p else Step(After(p, run[..|run| - 1], balance), run[|run| - 1], balance)
  }

  function TotalBumped(run: seq<Event>): nat {
    if run == [] then 0 else
      var e := run[|run| - 1];
      TotalBumped(run[..|run| - 1]) + if e.Bump? then e.delta else 0
  }

  lemma StepKeepsCover(p: Payouts, e: Event, balance: u128)
    requires Bounded(p)
    ensures Bounded(Step(p, e, balance))
    ensures balance < U128_MAX ==>
              Sum(Step(p, e, balance)) <= Max(Sum(p), balance) + if e.Bump? then e.delta else 0
    ensures forall key :: Cumulative(p, key) <= Cumulative(Step(p, e, balance), key)
  {
    match e
    case Record(key, cumulative) =>
      PassesExactly(p, key, cumulative, balance);
    case Bump(key, delta) =>
      TotalAfterMoves(p, key, Cumulative(p, key) + delta);
  }

  /** Over any interleaving of lanes and bee peers no payee's cumulative ever falls,
      and below the largest balance the total claims outgrow the balance by no
      more than the ungated bumps. */
  lemma {:induction false} ClaimsStayCovered(p: Payouts, run: seq<Event>, balance: u128)
    requires Bounded(p)
    ensures Bounded(After(p, run, balance))
    ensures balance < U128_MAX ==> Sum(After(p, run, balance)) <= Max(Sum(p), balance) + TotalBumped(run)
    ensures forall key :: Cumulative(p, key) <= Cumulative(After(p, run, balance), key)
  {
    if run != [] {
      var n := |run| - 1;
      ClaimsStayCovered(p, run[..n], balance);
      StepKeepsCover(After(p, run[..n], balance), run[n], balance);
    }
  }

  ghost predicate CoveredThroughout(p: Payouts, run: seq<Event>, balance: u128) {
    Bounded(p) && Sum(p) <= balance && TotalBumped(run) == 0 ==> Sum(After(p, run, balance)) <= balance
  }

  /** The gate keeps every run of lanes, from every covered store, within the
      balance exactly when the balance is below the largest 128-bit number. */
  lemma GateProtectsBalance(balance: u128)
    ensures (forall p, run :: CoveredThroughout(p, run, balance)) <==> balance < U128_MAX
  {
    if balance < U128_MAX {
      forall p, run
        ensures CoveredThroughout(p, run, balance)
      {
        if Bounded(p) {
          ClaimsStayCovered(p, run, balance);
        }
      }
    } else {
      var p, run := LargestBalanceOverdraws();
      assert !CoveredThroughout(p, run, balance);
    }
  }

  /** With the largest balance wholly promised to one payee, the gate lets a second
      be promised as much again. */
  lemma LargestBalanceOverdraws() returns (p: Payouts, run: seq<Event>)
    ensures Bounded(p) && Sum(p) == U128_MAX && TotalBumped(run) == 0
    ensures !Exceeds(Min(Sum(p), U128_MAX), Cumulative(p, "b"), U128_MAX, U128_MAX)
    ensures Sum(After(p, run, U128_MAX)) == 2 * U128_MAX
  {
    var none: Payouts := map[];
    p := none["a" := U128_MAX];
    SumUpdate(none, "a", U128_MAX);
    assert Lower("b") == "b";
    SumUpdate(p, "b", U128_MAX);
    run := [Record("b", U128_MAX)];
    assert run[..0] == [];
    assert After(p, run[..0], U128_MAX) == p;
    assert Recorded(p, "b", U128_MAX, U128_MAX) == p["b" := U128_MAX];
  }

  // ---- Keys ----------------------------------------------------------------

  function HexDigit(d: nat): char
    requires d < 16
  {
    if d < 10 then ('0' as int + d) as char else ('a' as int + (d - 10)) as char
  }

  function Hex(bs: seq<byte>): (s: string)
    ensures |s| == 2 * |bs|
    ensures forall i :: 0 <= i < |s| ==> s[i] != ':' && LowerChar(s[i]) == s[i]
  {
    if bs == [] then "" else [HexDigit(bs[0] as nat / 16), HexDigit(bs[0] as nat % 16)] + Hex(bs[1..])
  }

  function DigitValue(c: char): nat {
    if '0' <= c <= '9' then c as nat - '0' as nat
    else if 'a' <= c <= 'f' then 10 + (c as nat - 'a' as nat)
    else 0
  }

  /** Each byte is spelled by its high digit and then its low one. */
  lemma {:induction false} HexReadsBack(bs: seq<byte>, i: nat)
    requires i < |bs|
    ensures 16 * DigitValue(Hex(bs)[2 * i]) + DigitValue(Hex(bs)[2 * i + 1]) == bs[i] as nat
    decreases i
  {
    if i > 0 {
      HexReadsBack(bs[1..], i - 1);
      assert Hex(bs)[2 * i] == Hex(bs[1..])[2 * (i - 1)] && Hex(bs)[2 * i + 1] == Hex(bs[1..])[2 * (i - 1) + 1];
    }
  }

  function RelayKey(beneficiary: seq<byte>): string { "relay:" + Hex(beneficiary) }

  lemma RelayKeyIsLower(a: seq<byte>)
    ensures Lower(RelayKey(a)) == RelayKey(a)
    ensures RelayKey(a)[5] == ':' && RelayKey(a)[6..] == Hex(a)
  {
    var key := RelayKey(a);
    forall i | 0 <= i < |key|
      ensures LowerChar(key[i]) == key[i]
    {
      if i >= 6 {
        assert key[i] == Hex(a)[i - 6];
      }
    }
    assert Lower(key) == key;
  }

  lemma {:induction false} HexInjective(a: seq<byte>, b: seq<byte>)
    requires Hex(a) == Hex(b)
    ensures a == b
  {
    assert |Hex(a)| == 2 * |a| && |Hex(b)| == 2 * |b|;
    if a != [] {
      assert Hex(a)[0] == Hex(b)[0] && Hex(a)[1] == Hex(b)[1];
      assert Hex(a)[2..] == Hex(a[1..]) && Hex(b)[2..] == Hex(b[1..]);
      HexInjective(a[1..], b[1..]);
      assert a == [a[0]] + a[1..] && b == [b[0]] + b[1..];
    }
  }

  /** Two lanes share a running total exactly when they share a beneficiary, and
      never share one with a bee peer's overlay. */
  lemma RelaySharesOneTotal(a: seq<byte>, b: seq<byte>, overlay: seq<byte>)
    ensures Lower(RelayKey(a)) == Lower(RelayKey(b)) <==> a == b
    ensures Lower(RelayKey(a)) != Lower(Hex(overlay))
  {
    RelayKeyIsLower(a);
    RelayKeyIsLower(b);
    if RelayKey(a) == RelayKey(b) {
      HexInjective(a, b);
    }
    assert Lower(Hex(overlay)) == Hex(overlay);
  }
}
