/** The client's side of a metered lane: the running account it keeps from the
    bytes it sent, and the arithmetic that sizes each POST to the credit line. */
module Payer {
  import opened Arith
  import opened Meter
  import PushFrame

  // ---- The lane account as a value -----------------------------------------

  /** `cap == 0` stands for a line no challenge has reported yet. */
  datatype Lane = Lane(params: Params, owed: nat, pending: nat, cumulative: nat, cap: nat) {

    function Outstanding(): nat { SatAdd(owed, pending) }

    function RecordSent(bytes: nat): Lane {
      this.(pending := SatAdd(pending, Price(params, bytes)))
    }

    /** `reachedRelay` is false only for a POST refused at admission. */
    function RecordAnswered(bytes: nat, reachedRelay: bool): Lane {
      var price := Price(params, bytes);
      this.(pending := SatSub(pending, price),
            owed := if reachedRelay then SatAdd(owed, price) else owed)
    }

    function RefundDedup(bytes: nat): Lane {
      this.(owed := SatSub(owed, Price(params, bytes)))
    }

    function SetCumulativeTo(c: nat): Lane {
      if c > cumulative then this.(cumulative := c) else this
    }

    function Thresholds(): EffectiveParams {
      if cap == 0 then EffectiveParams(params.minCheque, params.settleEvery)
      else Effective(params, cap)
    }

    predicate ShouldSettle() { owed >= Thresholds().settleEvery }

    function NextCumulative(): Option<nat> {
      if owed < Thresholds().minCheque then None else Some(SatAdd(cumulative, owed))
    }

    function ForgivePhantomDebt(): Lane { this.(owed := 0) }

    function SyncRelayDebt(relayOwed: nat): Lane { this.(owed := relayOwed) }

    /** Deducts what is still on the wire, and only ever raises. */
    function AdoptRelayDebt(relayOwed: nat): Lane {
      var adopt := SatSub(relayOwed, pending);
      if adopt <= owed then this else this.(owed := adopt)
    }

    function Settled(c: nat): Lane {
      this.(cumulative := c, owed := SatSub(owed, SatSub(c, cumulative)))
    }

    function MaxBodyBytes(line: nat): nat {
      var headroom := SatSub(line, Outstanding());
      var kib := headroom / Max(params.pricePerKib, 1);
      Min(Min(kib * 1024, U128_MAX), U64_MAX)
    }

    predicate HasHeadroom() {
      cap == 0 || SatAdd(Outstanding(), Price(params, PushFrame.MAX_FRAME_LEN)) <= cap
    }

    predicate WouldExceed(bytes: nat) {
      cap > 0 && SatAdd(Outstanding(), Price(params, bytes)) > cap
    }
  }

  /** The mutable account each lane holds. */
  class LaneAccount {
    const params: Params
    var owed: nat
    var pending: nat
    var cumulative: nat
    var cap: nat

    ghost function View(): Lane
      reads this
    {
      Lane(params, owed, pending, cumulative, cap)
    }

    constructor (params: Params, cumulative: nat)
      ensures View() == Lane(params, 0, 0, cumulative, 0)
    {
      this.params := params;
      this.cumulative := cumulative;
      owed, pending, cap := 0, 0, 0;
    }

    method RecordSent(bytes: nat)
      modifies this
      ensures View() == old(View()).RecordSent(bytes)
    {
      pending := SatAdd(pending, Price(params, bytes));
    }

    method RecordAnswered(bytes: nat, reachedRelay: bool)
      modifies this
      ensures View() == old(View()).RecordAnswered(bytes, reachedRelay)
    {
      var price := Price(params, bytes);
      pending := SatSub(pending, price);
      if reachedRelay {
        owed := SatAdd(owed, price);
      }
    }

    method RefundDedup(bytes: nat)
      modifies this
      ensures View() == old(View()).RefundDedup(bytes)
    {
      owed := SatSub(owed, Price(params, bytes));
    }

    method SetCumulativeTo(c: nat)
      modifies this
      ensures View() == old(View()).SetCumulativeTo(c)
      ensures cumulative == Max(old(cumulative), c)
    {
      if c > cumulative {
        cumulative := c;
      }
    }

    method SetCap(line: nat)
      modifies this
      ensures View() == old(View()).(cap := line)
    {
      cap := line;
    }

    method ForgivePhantomDebt()
      modifies this
      ensures View() == old(View()).ForgivePhantomDebt()
    {
      owed := 0;
    }

    method SyncRelayDebt(relayOwed: nat)
      modifies this
      ensures View() == old(View()).SyncRelayDebt(relayOwed)
    {
      owed := relayOwed;
    }

    method AdoptRelayDebt(relayOwed: nat) returns (moved: bool)
      modifies this
      ensures View() == old(View()).AdoptRelayDebt(relayOwed)
      ensures owed == Max(old(owed), SatSub(relayOwed, old(pending)))
      ensures moved <==> owed != old(owed)
    {
      var adopt := SatSub(relayOwed, pending);
      if adopt <= owed {
        return false;
      }
      owed := adopt;
      moved := true;
    }

    method Settled(c: nat)
      modifies this
      ensures View() == old(View()).Settled(c)
      ensures cumulative == c && owed + Min(SatSub(c, old(cumulative)), old(owed)) == old(owed)
    {
      var credited := SatSub(c, cumulative);
      cumulative := c;
      owed := SatSub(owed, credited);
    }
  }

  // ---- POST sizing ---------------------------------------------------------

  /** The estimate `frames_within` starts its walk from, on 64-bit counts. */
  function FrameEstimate(p: Params, budget: nat): nat
    requires p.pricePerKib > 0
  {
    FramesIn((budget / p.pricePerKib) * 1024)
  }

  function FramesIn(bytes: nat): nat { Min(Min(bytes, U128_MAX) / PushFrame.MAX_FRAME_LEN, U64_MAX) }

  /** The length of a body of `n` full frames, multiplied out on 64 bits. */
  function WrappedLen(n: nat): nat { (n * PushFrame.MAX_FRAME_LEN) % (U64_MAX + 1) }

  lemma EstimateIsLargest(bytes: nat, n: nat)
    requires n <= U64_MAX
    ensures n * PushFrame.MAX_FRAME_LEN <= bytes <==> n <= FramesIn(bytes)
  {
    DivIsLargest(Min(bytes, U128_MAX), PushFrame.MAX_FRAME_LEN, n);
  }

  /** The estimate is the largest count any 64-bit answer could be. */
  lemma FrameEstimateExact(p: Params, budget: nat, n: nat)
    requires p.pricePerKib > 0 && n <= U64_MAX
    ensures Price(p, n * PushFrame.MAX_FRAME_LEN) <= budget <==> n <= FrameEstimate(p, budget)
  {
    var bytes := (budget / p.pricePerKib) * 1024;
    EstimateIsLargest(bytes, n);
    var body := n * PushFrame.MAX_FRAME_LEN;
    PriceWithin(p, body, budget);
    assert body <= bytes <==> n <= FramesIn(bytes);
  }

  /** Multiplying out on 64 bits can only make a body look shorter, so no count up
      to the estimate is ever walked down from. */
  lemma WalkNeverSteps(p: Params, budget: nat, n: nat)
    requires p.pricePerKib > 0 && n <= FrameEstimate(p, budget)
    ensures Price(p, WrappedLen(n)) <= budget
  {
    FrameEstimateExact(p, budget, n);
    PriceMono(p, WrappedLen(n), n * PushFrame.MAX_FRAME_LEN);
  }

  /** The largest 64-bit frame count the budget pays for. The answer is never zero
      for a positive budget, so it is affordable exactly when one frame is. */
  method FramesWithin(p: Params, budget: nat) returns (n: nat)
    requires p.pricePerKib > 0
    ensures n <= U64_MAX
    ensures budget == 0 ==> n == 0
    ensures budget > 0 && Price(p, PushFrame.MAX_FRAME_LEN) > budget ==> n == 1
    ensures Price(p, PushFrame.MAX_FRAME_LEN) <= budget ==>
              forall k: nat :: k <= U64_MAX ==> (Price(p, k * PushFrame.MAX_FRAME_LEN) <= budget <==> k <= n)
  {
    FrameEstimateExact(p, budget, 1);
    if budget == 0 {
      return 0;
    }
    n := FrameEstimate(p, budget);
    while n > 1 && Price(p, WrappedLen(n)) > budget
      invariant n <= FrameEstimate(p, budget)
      invariant n < FrameEstimate(p, budget) ==> Price(p, WrappedLen(n + 1)) > budget
    {
      n := n - 1;
    }
    if n < FrameEstimate(p, budget) {
      WalkNeverSteps(p, budget, n + 1);
    }
    n := Max(n, 1);
    if Price(p, PushFrame.MAX_FRAME_LEN) <= budget {
      forall k: nat | k <= U64_MAX
        ensures Price(p, k * PushFrame.MAX_FRAME_LEN) <= budget <==> k <= n
      {
        FrameEstimateExact(p, budget, k);
      }
    }
  }

  /** The headroom left pays for a body exactly when debt and body fit the line, and
      the saturating dispatch gate says so too, unless the line is the largest
      128-bit number and the sum is not representable. Without a line everything
      goes. */
  lemma HeadroomDecides(l: Lane, bytes: nat)
    requires l.params.pricePerKib > 0 && l.cap <= U128_MAX && bytes > 0
    ensures Price(l.params, bytes) <= SatSub(l.cap, l.Outstanding())
            <==> l.Outstanding() + Price(l.params, bytes) <= l.cap
    ensures l.cap == 0 ==> !l.WouldExceed(bytes) && l.HasHeadroom()
    ensures l.cap > 0 ==>
              (l.WouldExceed(bytes) == (l.Outstanding() + Price(l.params, bytes) > l.cap)
               <==> l.cap < U128_MAX || l.Outstanding() + Price(l.params, bytes) <= U128_MAX)
  {
    PriceMono(l.params, 1, bytes);
    assert Price(l.params, 1) == l.params.pricePerKib;
  }

  /** Frames affordable now, debt and bytes in flight deducted: exactly the
      counts whose body fits the line beside them, and below the largest line
      zero exactly when a single frame would exceed it. A lane without a line has
      no limit. */
  method AffordableFrames(l: Lane) returns (n: nat)
    requires l.params.pricePerKib > 0 && l.cap <= U128_MAX
    ensures l.cap == 0 ==> n == U64_MAX
    ensures l.cap > 0 ==> forall k: nat :: 0 < k <= U64_MAX ==>
              (k <= n <==> l.Outstanding() + Price(l.params, k * PushFrame.MAX_FRAME_LEN) <= l.cap)
    ensures l.cap < U128_MAX ==> (n == 0 <==> !l.HasHeadroom())
  {
    if l.cap == 0 {
      return U64_MAX;
    }
    var headroom := SatSub(l.cap, l.Outstanding());
    HeadroomDecides(l, PushFrame.MAX_FRAME_LEN);
    if Price(l.params, PushFrame.MAX_FRAME_LEN) > headroom {
      n := 0;
      forall k: nat | 0 < k <= U64_MAX
        ensures l.Outstanding() + Price(l.params, k * PushFrame.MAX_FRAME_LEN) > l.cap
      {
        PriceMono(l.params, PushFrame.MAX_FRAME_LEN, k * PushFrame.MAX_FRAME_LEN);
        HeadroomDecides(l, k * PushFrame.MAX_FRAME_LEN);
      }
      return;
    }
    n := FramesWithin(l.params, headroom);
    forall k: nat | 0 < k <= U64_MAX
      ensures k <= n <==> l.Outstanding() + Price(l.params, k * PushFrame.MAX_FRAME_LEN) <= l.cap
    {
      HeadroomDecides(l, k * PushFrame.MAX_FRAME_LEN);
    }
    assert Price(l.params, 1 * PushFrame.MAX_FRAME_LEN) <= headroom;
  }

  /** A 64-bit body length fits the line exactly when the debt does and it is at most
      `MaxBodyBytes`, itself a 64-bit length, and zero when the debt does not. */
  lemma MaxBodyBytesExact(l: Lane, line: nat, bytes: nat)
    requires l.params.pricePerKib > 0
    requires line <= U128_MAX && bytes <= U64_MAX
    ensures l.owed + l.pending + Price(l.params, bytes) <= line
            <==> bytes <= l.MaxBodyBytes(line) && l.owed + l.pending <= line
    ensures line < l.owed + l.pending ==> l.MaxBodyBytes(line) == 0
    ensures l.MaxBodyBytes(line) <= U64_MAX
  {
    PriceWithin(l.params, bytes, SatSub(line, l.owed + l.pending));
  }

  // ---- No dead end ---------------------------------------------------------

  /** A settled lane can still dispatch, and a lane that cannot dispatch can pay.
      Neither can fail without a line, nor on the largest one, which no saturated
      sum exceeds. */
  predicate NeverStuck(p: Params, cap: nat) {
    cap == 0 || cap >= U128_MAX || (
      && Price(p, PushFrame.MAX_FRAME_LEN) <= cap
      && Effective(p, cap).minCheque <= cap - Price(p, PushFrame.MAX_FRAME_LEN) + 1)
  }

  /** With nothing in flight, a lane either has headroom or owes a payable amount, whatever the debt, exactly under
      `NeverStuck`: a condition on the quoted parameters and the line alone. */
  lemma NoDeadEnd(p: Params, cap: nat)
    requires cap <= U128_MAX
    ensures NeverStuck(p, cap) <==>
            forall owed: nat, cumulative: nat ::
              var l := Lane(p, owed, 0, cumulative, cap);
              l.HasHeadroom() || l.NextCumulative().Some?
  {
    var frame := Price(p, PushFrame.MAX_FRAME_LEN);
    if !NeverStuck(p, cap) {
      // The least debt that shuts out a frame is below the dust floor.
      var owed := if frame > cap then 0 else cap - frame + 1;
      var l := Lane(p, owed, 0, 0, cap);
      EffectiveOrdered(p, cap);
      assert !l.HasHeadroom() && l.NextCumulative().None?;
    }
  }

  /** Settlement is due once the configured window or half the line is owed, and a
      cheque for the whole debt can be written once the configured dust floor or
      that much is; never for nothing under a line. */
  lemma DueExactly(l: Lane)
    ensures l.ShouldSettle() <==>
              if l.cap == 0 then l.owed >= l.params.settleEvery
              else l.owed >= 1 && (l.owed >= l.params.settleEvery || l.cap <= 2 * l.owed + 1)
    ensures l.NextCumulative().Some? <==>
              if l.cap == 0 then l.owed >= l.params.minCheque
              else l.owed >= 1 && (l.owed >= l.params.minCheque || l.owed >= l.params.settleEvery
                                   || l.cap <= 2 * l.owed + 1)
    ensures l.NextCumulative().Some? && l.cumulative + l.owed <= U128_MAX ==>
              l.NextCumulative().value == l.cumulative + l.owed
  {
    if l.cap > 0 {
      EffectiveExact(l.params, l.cap, l.owed);
    }
  }

  /** Whenever settlement is due there is a cheque to write, and the debt it
      clears is what makes it due. */
  lemma DueIsPayable(l: Lane)
    requires Valid(l.params)
    requires l.ShouldSettle() && l.cumulative + l.owed <= U128_MAX
    ensures l.NextCumulative() == Some(l.cumulative + l.owed)
    ensures l.cap > 0 || l.params.settleEvery > 0 ==>
              !l.Settled(l.NextCumulative().value).ShouldSettle()
  {
  }

  /** A line of two frames is always enough, for any parameters, because both
      thresholds are scaled below half the line. */
  lemma TwoFramesNeverStick(p: Params, cap: nat)
    requires cap >= 2 * Price(p, PushFrame.MAX_FRAME_LEN) && cap >= 2
    ensures NeverStuck(p, cap)
  {
    EffectiveOrdered(p, cap);
  }

  /** Under the shipped defaults a batch worth ten to the fourteenth still earns a
      line of 208 KiB. */
  lemma SmallBatchLine(cumulative: nat)
    ensures Lane(DEFAULTS, 0, 0, cumulative, 0).MaxBodyBytes(CreditLine(DEFAULTS, 100_000_000_000_000)) == 208 * 1024
  {
    DivIsLargest(100_000_000_000_000, 1_000, 100_000_000_000);
    DivIsLargest(100_000_000_000_000, 1_000, 100_000_000_001);
  }

  /** Under the shipped defaults a line of seven KiB-prices has a dead end: three
      KiB-prices owed leave no room for a frame and are below the dust floor. */
  lemma SevenKibLineSticks()
    ensures Validate(DEFAULTS).Ok?
    ensures var l := Lane(DEFAULTS, 3 * DEFAULTS.pricePerKib, 0, 0, 7 * DEFAULTS.pricePerKib);
            !l.HasHeadroom() && l.NextCumulative().None? && l.owed <= l.cap
    ensures !NeverStuck(DEFAULTS, 7 * DEFAULTS.pricePerKib)
  {
  }

  /** Paying all that is owed on an idle lane restores headroom. */
  lemma SettlingRestoresHeadroom(l: Lane)
    requires l.cap <= U128_MAX && NeverStuck(l.params, l.cap)
    requires l.pending == 0 && l.cumulative + l.owed <= U128_MAX
    requires l.NextCumulative().Some?
    ensures var done := l.Settled(l.NextCumulative().value);
            done.owed == 0 && done.HasHeadroom()
  {
  }
}
