/** The metered-mode parameters both sides of a lane derive every figure from. */
module Meter {
  import opened Arith

  datatype Params = Params(
    pricePerKib: nat,
    minCheque: nat,
    settleEvery: nat,
    maxOutstanding: nat,
    creditRatio: nat)

  datatype EffectiveParams = EffectiveParams(minCheque: nat, settleEvery: nat)

  datatype ParamError = ZeroPrice | ZeroRatio | DustAboveSettle | SettleAboveCeiling

  /** The shipped defaults. */
  const DEFAULTS := Params(480_000_000, 3_900_000_000_000, 15_600_000_000_000, 62_200_000_000_000, 1_000)

  function Validate(p: Params): Result<(), ParamError> {
    if p.pricePerKib == 0 then Err(ZeroPrice)
    else if p.creditRatio == 0 then Err(ZeroRatio)
    else if p.minCheque > p.settleEvery then Err(DustAboveSettle)
    else if p.settleEvery >= p.maxOutstanding then Err(SettleAboveCeiling)
    else Ok(())
  }

  /** What every lane and every relay that came up has checked. */
  predicate Valid(p: Params) {
    0 < p.pricePerKib && 0 < p.creditRatio && p.minCheque <= p.settleEvery < p.maxOutstanding
  }

  function CreditLine(p: Params, remainingValue: nat): nat
    requires p.creditRatio > 0
  {
    Min(remainingValue / p.creditRatio, p.maxOutstanding)
  }

  /** A body is rounded up to KiB once and priced. */
  function Price(p: Params, bytes: nat): nat { KibUp(bytes) * p.pricePerKib }

  /** The settlement thresholds that apply under a given credit line. */
  function Effective(p: Params, cap: nat): EffectiveParams {
    var settleEvery := Max(Min(p.settleEvery, cap / 2), 1);
    EffectiveParams(Max(Min(p.minCheque, settleEvery), 1), settleEvery)
  }

  /** Startup accepts exactly the valid parameters, and names the first fault of any others. */
  lemma ValidateDecides(p: Params)
    ensures Validate(p).Ok? <==> Valid(p)
    ensures Validate(p) == Err(ZeroPrice) <==> p.pricePerKib == 0
    ensures Validate(p) == Err(ZeroRatio) <==> p.pricePerKib > 0 && p.creditRatio == 0
    ensures Validate(p) == Err(DustAboveSettle) <==>
              p.pricePerKib > 0 && p.creditRatio > 0 && p.settleEvery < p.minCheque
  {
  }

  /** The line is the largest amount within the ceiling whose multiple by the ratio is
      covered by the batch's remaining value. */
  lemma CreditLineExact(p: Params, remainingValue: nat, n: nat)
    requires p.creditRatio > 0
    ensures n <= CreditLine(p, remainingValue) <==> n * p.creditRatio <= remainingValue && n <= p.maxOutstanding
  {
    DivIsLargest(remainingValue, p.creditRatio, n);
  }

  /** Pricing is monotone, so billing part of a body never exceeds its reservation. */
  lemma PriceMono(p: Params, a: nat, b: nat)
    requires a <= b
    ensures Price(p, a) <= Price(p, b)
  {
    MulMono(KibUp(a), KibUp(b), p.pricePerKib);
  }

  /** Pricing a body in two parts can only cost more than pricing it whole, and
      at most one KiB more. A client that refunds the acknowledged part of a
      body therefore never counts more than a relay that bills only the rest. */
  lemma PriceSplit(p: Params, whole: nat, part: nat)
    requires part <= whole
    ensures Price(p, whole) <= Price(p, part) + Price(p, whole - part) <= Price(p, whole) + p.pricePerKib
  {
    var k, a, b := KibUp(whole), KibUp(part), KibUp(whole - part);
    assert k <= a + b <= k + 1;
    assert (a + b) * p.pricePerKib == a * p.pricePerKib + b * p.pricePerKib;
    assert (k + 1) * p.pricePerKib == k * p.pricePerKib + p.pricePerKib;
    MulMono(k, a + b, p.pricePerKib);
    MulMono(a + b, k + 1, p.pricePerKib);
  }

  /** A body fits an amount exactly when its KiB count fits the amount's KiB count. */
  lemma PriceWithin(p: Params, bytes: nat, budget: nat)
    requires p.pricePerKib > 0
    ensures Price(p, bytes) <= budget <==> bytes <= (budget / p.pricePerKib) * 1024
  {
    DivIsLargest(budget, p.pricePerKib, KibUp(bytes));
    KibUpBounds(bytes, budget / p.pricePerKib);
  }

  /** The thresholds are the largest within the configured ones, half the line and, for
      dust, the settlement window, but never below one. */
  lemma EffectiveExact(p: Params, cap: nat, n: nat)
    ensures n <= Effective(p, cap).settleEvery <==> n <= 1 || (n <= p.settleEvery && 2 * n <= cap)
    ensures n <= Effective(p, cap).minCheque <==>
              n <= 1 || (n <= p.minCheque && n <= p.settleEvery && 2 * n <= cap)
  {
  }

  /** The scaled thresholds keep the order that makes a refusal clearable:
      some positive amount is payable no later than settlement is due, and on
      any line of at least two settlement is due no later than half the line. */
  lemma EffectiveOrdered(p: Params, cap: nat)
    ensures 1 <= Effective(p, cap).minCheque <= Effective(p, cap).settleEvery
    ensures cap >= 2 ==> Effective(p, cap).settleEvery <= cap / 2
    ensures Valid(p) && cap >= 2 * p.settleEvery && 1 <= p.minCheque ==>
              Effective(p, cap) == EffectiveParams(p.minCheque, p.settleEvery)
  {
  }
}
