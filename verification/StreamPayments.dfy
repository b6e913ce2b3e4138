/** A STREAM payment: packets of varying size in flight, replies in any order, and a receipt.
    Rates are exact (the source uses big rationals); amounts are 64-bit. */
module StreamPayments {
  import opened Options
  import opened Congestion

  // ---------------------------------------------------------------- rates and rounding

  function Ceil(x: real): int {
    -((-x).Floor)
  }

  function ToU64(n: int): Option<nat> {
    if 0 <= n <= U64_MAX then Some(n) else None
  }

  function OrZero(n: Option<nat>): nat {
    if n.Some? then n.value else 0
  }

  /** The least a packet of this size must deliver, rounded up; 0 if it does not fit 64 bits. */
  function MinDestination(amount: nat, rate: real): nat {
    OrZero(ToU64(Ceil(amount as real * rate)))
  }

  /** 1 / (rate * 0.001), rounded up: below this size rounding may eat the margin. */
  function MinSource(rate: real): nat {
    if rate == 0.0 then 0 else OrZero(ToU64(Ceil(1.0 / (rate * 0.001))))
  }

  /** ceil(1.2 * amount), saturating. */
  function DustThreshold(amount: nat): nat {
    Min((6 * amount + 4) / 5, U64_MAX)
  }

  lemma CeilBounds(x: real)
    ensures x <= Ceil(x) as real < x + 1.0
  {
  }

  lemma CeilIsLeast(x: real, n: int)
    requires x <= n as real
    ensures Ceil(x) <= n
  {
  }

  // ---------------------------------------------------------------- the payment as a value

  datatype Receipt = Receipt(sourceAmount: nat, sent: nat, inFlight: nat, delivered: nat)

  datatype Payment = Payment(controller: Controller, receipt: Receipt)

  function NewPayment(amount: nat): Payment {
    Payment(NewController(amount, amount / 10), Receipt(amount, 0, 0, 0))
  }

  function Fulfilled(r: Receipt): nat {
    SatSub(r.sent, r.inFlight)
  }

  predicate IsComplete(p: Payment) {
    SatSub(p.receipt.sourceAmount, Fulfilled(p.receipt)) == 0
  }

  function Available(r: Receipt): nat {
    SatSub(r.sourceAmount, r.sent)
  }

  predicate IsMaxInFlight(p: Payment) {
    LeftInWindow(p.controller) == 0 || Available(p.receipt) == 0
  }

  /** `(remaining + (packets - 1)) / packets` in 64-bit arithmetic. */
  function Spread(remaining: nat, packets: nat): nat
    requires packets > 0
  {
    QuotientIsNat(WrapAdd(remaining, packets - 1), packets);
    WrapAdd(remaining, packets - 1) / packets
  }

  lemma QuotientIsNat(a: nat, b: nat)
    requires b > 0
    ensures a / b >= 0
  {
  }

  /** Spread a final packet that would be too small over the packets before it. */
  function SpreadDust(remaining: nat, size: nat, minSource: nat): nat
    requires size > 0
  {
    var packets := remaining / size;
    if packets > 0 && remaining % size < DustThreshold(minSource) then Spread(remaining, packets) else size
  }

  /** The size of the next packet: window, rounding floor, dust, packet limit, amount available. */
  function SizeFrom(p: Payment, minSource: nat): nat
    requires LeftInWindow(p.controller) > 0
  {
    var size := Max(LeftInWindow(p.controller), minSource);
    var spread := SpreadDust(Available(p.receipt), size, minSource);
    Min(Min(spread, MaxPacketAmount(p.controller)), Available(p.receipt))
  }

  function PacketSize(p: Payment, rate: real): nat
    requires LeftInWindow(p.controller) > 0
  {
    SizeFrom(p, MinSource(rate))
  }

  function AfterSend(p: Payment, amount: nat): Payment {
    Payment(AfterPrepare(p.controller, amount),
            p.receipt.(sent := SatAdd(p.receipt.sent, amount), inFlight := SatAdd(p.receipt.inFlight, amount)))
  }

  function AfterFulfilled(p: Payment, amount: nat, delivered: nat): Payment {
    Payment(AfterFulfill(p.controller, amount),
            p.receipt.(inFlight := SatSub(p.receipt.inFlight, amount),
                       delivered := SatAdd(p.receipt.delivered, delivered)))
  }

  function AfterRejected(p: Payment, amount: nat, rejection: Rejection): Payment
    requires Processable(rejection)
  {
    Payment(AfterReject(p.controller, amount, rejection),
            p.receipt.(sent := SatSub(p.receipt.sent, amount), inFlight := SatSub(p.receipt.inFlight, amount)))
  }

  // ---------------------------------------------------------------- sizing

  /** n packets of the new size cover the amount, and the size less than doubles. */
  predicate SpreadsWell(remaining: nat, size: nat, n: nat, spread: nat) {
    size <= spread < 2 * size && n * spread >= remaining
  }

  /** The dust rule spreads well if and only if its sum fits 64 bits; otherwise the size becomes zero. */
  lemma DustRule(remaining: nat, size: nat, n: nat)
    requires 0 < size && n == remaining / size && n > 0 && remaining <= U64_MAX
    ensures SpreadsWell(remaining, size, n, Spread(remaining, n)) <==> remaining + n - 1 <= U64_MAX
    ensures Spread(remaining, n) > 0 <==> remaining + n - 1 <= U64_MAX
  {
    QuotientAtMost(remaining, size);
    if remaining + n - 1 <= U64_MAX {
      SpreadIsGood(remaining, size, n);
    } else {
      WrappedSpreadIsZero(remaining, n);
    }
  }

  lemma SpreadIsGood(remaining: nat, size: nat, n: nat)
    requires 0 < size && n == remaining / size && n > 0 && remaining + n - 1 <= U64_MAX
    ensures SpreadsWell(remaining, size, n, Spread(remaining, n))
  {
    var spread := (remaining + n - 1) / n;
    FloorDiv(remaining, size);
    FloorDiv(remaining + n - 1, n);
    assert remaining <= n * spread;
    SpreadAtLeast(n, size, spread);
    SpreadBelowDouble(n, size, spread);
  }

  lemma WrappedSpreadIsZero(remaining: nat, n: nat)
    requires 1 <= n <= U64_MAX && remaining <= U64_MAX < remaining + n - 1
    ensures Spread(remaining, n) == 0
  {
    assert WrapAdd(remaining, n - 1) == remaining + n - 1 - (U64_MAX + 1) < n;
  }

  lemma QuotientIsPositive(a: nat, b: nat)
    requires 0 < b <= a
    ensures a / b >= 1
  {
  }

  lemma SpreadAtLeast(n: nat, size: nat, spread: nat)
    requires n >= 1 && n * size <= n * spread
    ensures size <= spread
  {
    if spread < size {
      MulStrict(spread, size, n);
    }
  }

  lemma SpreadBelowDouble(n: nat, size: nat, spread: nat)
    requires n >= 1 && size >= 1
    requires n * spread < (size * n + size) + n - 1
    ensures spread < 2 * size
  {
    MulMono(0, n - 1, size - 1);
    assert (n - 1) * (size - 1) == size * n - size - n + 1;
    MulCancel(spread, 2 * size, n);
  }

  lemma ThresholdMeans(left: nat, minSource: nat)
    requires DustThreshold(minSource) <= left < U64_MAX
    ensures 5 * left >= 6 * minSource
  {
  }

  lemma FullPackets(remaining: nat, size: nat)
    requires size > 0
    ensures remaining / size * size == remaining - remaining % size
  {
  }

  /** No dust is left over: after as many packets of the chosen size as the dust rule counted on, the
      payment has nothing more to send, or at least 1.2 times the minimum source amount. */
  lemma NoDustIsLeft(remaining: nat, size: nat, minSource: nat)
    requires 0 < size <= remaining <= U64_MAX
    ensures var n := remaining / size;
            var spread := SpreadDust(remaining, size, minSource);
            spread > 0 ==> n * spread >= remaining || 5 * (remaining - n * spread) >= 6 * minSource
  {
    QuotientIsPositive(remaining, size);
    if remaining % size < DustThreshold(minSource) {
      DustRule(remaining, size, remaining / size);
    } else {
      FullPackets(remaining, size);
      ThresholdMeans(remaining % size, minSource);
    }
  }

  /** The packet meets its minimum destination amount after one rounding down at the given rate. */
  predicate Meets(amount: nat, rate: real, better: real) {
    MinDestination(amount, rate) <= (amount as real * better).Floor
  }

  /** A packet worth at least 1000 destination units still meets its minimum after one rounding down, at
      any rate at least 0.1% better than the one the minimum was computed with. */
  lemma RoundingDownMeetsMinimum(amount: nat, rate: real, better: real)
    requires rate > 0.0 && amount as real * (rate * 0.001) >= 1.0
    requires better >= rate * 1.001
    ensures Meets(amount, rate, better)
  {
    var a := amount as real;
    var step := rate * 0.001;
    RealMonoLeft(rate * 1.001, better, a);
    assert a * (rate * 1.001) == a * rate + a * step;
    assert a * better >= a * rate + 1.0;
    CeilBounds(a * rate);
    assert Ceil(a * rate) as real < a * better;
  }

  lemma MinSourceIsEnough(amount: nat, rate: real)
    requires rate > 0.0 && Ceil(1.0 / (rate * 0.001)) <= U64_MAX && MinSource(rate) <= amount
    ensures amount as real * (rate * 0.001) >= 1.0
  {
    var step := rate * 0.001;
    CeilBounds(1.0 / step);
    InverseIsPositive(step);
    RealMono(1.0 / step, amount as real, step);
  }

  /** The minimum source amount does what it is for at every rate for which it fits 64 bits, and at no
      other rate: where it does not fit it is taken as zero, and a packet of 1 misses its minimum. */
  lemma MinSourceProtectsIff(rate: real)
    requires rate > 0.0
    ensures (forall amount, better ::
               MinSource(rate) <= amount && better >= rate * 1.001 ==> Meets(amount, rate, better))
       <==> Ceil(1.0 / (rate * 0.001)) <= U64_MAX
  {
    if Ceil(1.0 / (rate * 0.001)) <= U64_MAX {
      forall amount, better | MinSource(rate) <= amount && better >= rate * 1.001 ensures Meets(amount, rate, better) {
        MinSourceIsEnough(amount, rate);
        RoundingDownMeetsMinimum(amount, rate, better);
      }
    } else {
      TinyRate(rate);
      OneUnitMisses(rate);
      assert MinSource(rate) <= 1;
      assert !Meets(1, rate, rate * 1.001);
    }
  }

  lemma TinyRate(rate: real)
    requires rate > 0.0 && Ceil(1.0 / (rate * 0.001)) > U64_MAX
    ensures rate < 0.5
  {
    var step := rate * 0.001;
    CeilBounds(1.0 / step);
    InverseIsPositive(step);
    RealMono(4000.0, 1.0 / step, step);
  }

  lemma OneUnitMisses(rate: real)
    requires 0.0 < rate < 0.5
    ensures !Meets(1, rate, rate * 1.001)
  {
    assert 1 as real * rate == rate && 1 as real * (rate * 1.001) == rate * 1.001;
    assert Ceil(rate) == 1 && (rate * 1.001).Floor == 0;
  }

  lemma InverseIsPositive(x: real)
    requires x > 0.0
    ensures 1.0 / x > 0.0 && (1.0 / x) * x == 1.0
  {
  }

  lemma RealMono(x: real, y: real, c: real)
    requires x <= y && c >= 0.0
    ensures x * c <= y * c
  {
  }

  lemma RealMonoLeft(x: real, y: real, c: real)
    requires x <= y && c >= 0.0
    ensures c * x <= c * y
  {
  }

  /** A packet never exceeds the learned limit or the amount still available. */
  lemma PacketSizeBounds(p: Payment, rate: real)
    requires LeftInWindow(p.controller) > 0
    ensures PacketSize(p, rate) <= MaxPacketAmount(p.controller)
    ensures PacketSize(p, rate) <= Available(p.receipt)
  {
  }

  /** The dust rule applies and its sum does not fit 64 bits. */
  predicate DustOverflows(remaining: nat, size: nat, minSource: nat)
    requires size > 0
  {
    && remaining / size > 0 && remaining % size < DustThreshold(minSource)
    && remaining + remaining / size - 1 > U64_MAX
  }

  /** A packet carries something exactly if the learned limit is not zero and the dust rule does not
      overflow, which it never does up to half the largest amount. */
  lemma PacketIsEmptyIff(p: Payment, rate: real)
    requires LeftInWindow(p.controller) > 0 && 0 < Available(p.receipt) <= U64_MAX
    ensures var minSource := MinSource(rate);
            var overflows := DustOverflows(Available(p.receipt), Max(LeftInWindow(p.controller), minSource), minSource);
            && (PacketSize(p, rate) > 0 <==> MaxPacketAmount(p.controller) > 0 && !overflows)
            && (Available(p.receipt) <= 0x8000_0000_0000_0000 ==> !overflows)
  {
    var minSource := MinSource(rate);
    var size := Max(LeftInWindow(p.controller), minSource);
    SpreadIsZeroIffOverflow(Available(p.receipt), size, minSource);
    QuotientAtMost(Available(p.receipt), size);
  }

  lemma SpreadIsZeroIffOverflow(remaining: nat, size: nat, minSource: nat)
    requires size > 0 && remaining <= U64_MAX
    ensures SpreadDust(remaining, size, minSource) == 0 <==> DustOverflows(remaining, size, minSource)
  {
    if remaining / size > 0 {
      DustRule(remaining, size, remaining / size);
    }
  }

  lemma QuotientAtMost(a: nat, b: nat)
    requires b > 0
    ensures a / b <= a
  {
    FloorDiv(a, b);
    MulMono(1, b, a / b);
  }

  // ---------------------------------------------------------------- runs

  /** A packet whose reply has not been processed yet. */
  datatype Pending = Pending(amount: nat, minDestination: nat)

  /** The payment, its packets in flight, and how much was fulfilled so far. */
  datatype State = State(payment: Payment, pending: seq<Pending>, fulfilled: nat)

  function NewState(amount: nat): State {
    State(NewPayment(amount), [], 0)
  }

  datatype Step =
    | Send(rate: real)
    | Fulfil(index: nat, claimed: nat)
    | Refuse(index: nat, rejection: Rejection)

  function RemoveAt(s: seq<Pending>, i: nat): seq<Pending>
    requires i < |s|
  {
    s[..i] + s[i + 1..]
  }

  /** A packet is only sent if the payment is neither complete nor at its limit; a packet without a
      minimum destination amount carries a random condition and cannot be fulfilled. */
  predicate Enabled(s: State, step: Step) {
    match step
    case Send(rate) => !IsComplete(s.payment) && !IsMaxInFlight(s.payment)
    case Fulfil(i, claimed) => i < |s.pending| && s.pending[i].minDestination > 0 && claimed <= U64_MAX
    case Refuse(i, rejection) => i < |s.pending| && Processable(rejection)
  }

  function NextPacket(s: State, rate: real): Pending
    requires Enabled(s, Send(rate))
  {
    var amount := PacketSize(s.payment, rate);
    Pending(amount, MinDestination(amount, rate))
  }

  function Apply(s: State, step: Step): State
    requires Enabled(s, step)
  {
    match step
    case Send(rate) =>
      var packet := NextPacket(s, rate);
      s.(payment := AfterSend(s.payment, packet.amount), pending := s.pending + [packet])
    case Fulfil(i, claimed) =>
      var packet := s.pending[i];
      State(AfterFulfilled(s.payment, packet.amount, Max(packet.minDestination, claimed)),
            RemoveAt(s.pending, i), s.fulfilled + packet.amount)
    case Refuse(i, rejection) =>
      s.(payment := AfterRejected(s.payment, s.pending[i].amount, rejection), pending := RemoveAt(s.pending, i))
  }

  ghost predicate Run(amount: nat, states: seq<State>, steps: seq<Step>) {
    && amount <= U64_MAX
    && |states| == |steps| + 1
    && states[0] == NewState(amount)
    && forall i :: 0 <= i < |steps| ==> Enabled(states[i], steps[i]) && states[i + 1] == Apply(states[i], steps[i])
  }

  // ---------------------------------------------------------------- conservation

  function InFlight(pending: seq<Pending>): nat {
    if pending == [] then 0 else InFlight(pending[..|pending| - 1]) + pending[|pending| - 1].amount
  }

  lemma {:induction false} InFlightRemove(pending: seq<Pending>, i: nat)
    requires i < |pending|
    ensures InFlight(pending) == InFlight(RemoveAt(pending, i)) + pending[i].amount
  {
    var n := |pending| - 1;
    var rest := RemoveAt(pending, i);
    if i == n {
      assert rest == pending[..n];
    } else {
      InFlightRemove(pending[..n], i);
      assert rest[..n - 1] == RemoveAt(pending[..n], i);
    }
  }

  lemma InFlightAdd(pending: seq<Pending>, packet: Pending)
    ensures InFlight(pending + [packet]) == InFlight(pending) + packet.amount
  {
    assert (pending + [packet])[..|pending|] == pending;
  }

  /** The books balance: the receipt, the controller and the packets really in flight agree, and what
      was sent is what was fulfilled plus what is in flight, never more than the source amount. */
  predicate Balanced(s: State) {
    var r := s.payment.receipt;
    && r.inFlight == s.payment.controller.inFlight == InFlight(s.pending)
    && r.sent == s.fulfilled + r.inFlight
    && r.sent <= r.sourceAmount <= U64_MAX
    && r.delivered <= U64_MAX
    && (r.sourceAmount > 0 ==> WindowOpen(s.payment.controller))
  }

  lemma SendKeepsBalanced(s: State, rate: real)
    requires Balanced(s) && Enabled(s, Send(rate))
    ensures Balanced(Apply(s, Send(rate)))
    ensures s.payment.receipt.sent + NextPacket(s, rate).amount <= U64_MAX
  {
    PacketSizeBounds(s.payment, rate);
    PacketKeepsBalanced(s, NextPacket(s, rate));
  }

  lemma SmallSum(a: nat, b: nat)
    requires a + b <= U64_MAX
    ensures WrapAdd(a, b) == SatAdd(a, b) == a + b
  {
  }

  lemma SendingAdds(p: Payment, amount: nat)
    requires p.receipt.sent + amount <= U64_MAX && p.receipt.inFlight == p.controller.inFlight <= p.receipt.sent
    ensures var q := AfterSend(p, amount);
            && q.receipt.inFlight == q.controller.inFlight == p.receipt.inFlight + amount
            && q.receipt == p.receipt.(sent := p.receipt.sent + amount, inFlight := p.receipt.inFlight + amount)
            && q.controller.window == p.controller.window
  {
    SmallSum(p.receipt.sent, amount);
    SmallSum(p.receipt.inFlight, amount);
  }

  lemma PacketKeepsBalanced(s: State, packet: Pending)
    requires Balanced(s) && packet.amount <= Available(s.payment.receipt)
    ensures Balanced(s.(payment := AfterSend(s.payment, packet.amount), pending := s.pending + [packet]))
    ensures s.payment.receipt.sent + packet.amount <= U64_MAX
  {
    SendingAdds(s.payment, packet.amount);
    InFlightAdd(s.pending, packet);
  }

  lemma ReplyKeepsBalanced(s: State, step: Step)
    requires Balanced(s) && Enabled(s, step) && !step.Send?
    ensures Balanced(Apply(s, step))
    ensures s.pending[step.index].amount <= s.payment.receipt.inFlight
  {
    InFlightRemove(s.pending, step.index);
    if step.Refuse? {
      if s.payment.receipt.sourceAmount > 0 {
        WindowStaysOpen(s.payment.controller, s.pending[step.index].amount, step.rejection);
      }
    }
  }

  lemma ApplyKeepsBalanced(s: State, step: Step)
    requires Balanced(s) && Enabled(s, step)
    ensures Balanced(Apply(s, step))
    ensures Apply(s, step).payment.receipt.sourceAmount == s.payment.receipt.sourceAmount
  {
    if step.Send? {
      SendKeepsBalanced(s, step.rate);
    } else {
      ReplyKeepsBalanced(s, step);
    }
  }

  lemma {:induction false} RunIsBalanced(amount: nat, states: seq<State>, steps: seq<Step>)
    requires Run(amount, states, steps)
    ensures Balanced(states[|steps|]) && states[|steps|].payment.receipt.sourceAmount == amount
  {
    if steps != [] {
      var n := |steps| - 1;
      RunIsBalanced(amount, states[..n + 1], steps[..n]);
      ApplyKeepsBalanced(states[n], steps[n]);
    }
  }

  /** Conservation under any interleaving of sends, fulfils and refusals. */
  lemma MoneyIsConserved(amount: nat, states: seq<State>, steps: seq<Step>)
    requires Run(amount, states, steps)
    ensures var s := states[|steps|];
      && s.payment.receipt.inFlight == InFlight(s.pending) == s.payment.controller.inFlight
      && s.payment.receipt.sent == s.fulfilled + InFlight(s.pending) <= amount
  {
    RunIsBalanced(amount, states, steps);
  }

  /** No update of the sent and in-flight amounts ever clamps or wraps around: not when sending... */
  lemma SendNeverClamps(amount: nat, states: seq<State>, steps: seq<Step>, rate: real)
    requires Run(amount, states, steps) && Enabled(states[|steps|], Send(rate))
    ensures var s := states[|steps|];
            var a := NextPacket(s, rate).amount;
            && SatAdd(s.payment.receipt.sent, a) == s.payment.receipt.sent + a
            && SatAdd(s.payment.receipt.inFlight, a) == s.payment.receipt.inFlight + a
            && WrapAdd(s.payment.controller.inFlight, a) == s.payment.controller.inFlight + a
  {
    RunIsBalanced(amount, states, steps);
    SendKeepsBalanced(states[|steps|], rate);
  }

  /** ...and not when a reply is processed. */
  lemma ReplyNeverClamps(amount: nat, states: seq<State>, steps: seq<Step>, i: nat)
    requires Run(amount, states, steps) && i < |states[|steps|].pending|
    ensures var s := states[|steps|];
            var a := s.pending[i].amount;
            && a <= s.payment.receipt.sent && a <= s.payment.receipt.inFlight
            && WrapSub(s.payment.controller.inFlight, a) == s.payment.controller.inFlight - a
  {
    RunIsBalanced(amount, states, steps);
    ReplyKeepsBalanced(states[|steps|], Refuse(i, OtherError));
  }

  // ---------------------------------------------------------------- waiting and finishing

  lemma {:induction false} SomethingIsPending(pending: seq<Pending>)
    requires InFlight(pending) > 0
    ensures exists i :: 0 <= i < |pending| && pending[i].amount > 0
  {
    var n := |pending| - 1;
    if pending[n].amount == 0 {
      SomethingIsPending(pending[..n]);
      var i :| 0 <= i < n && pending[..n][i].amount > 0;
      assert pending[i].amount > 0;
    }
  }

  /** Whenever the sender decides to wait, some packet that carries money is really in flight. */
  lemma WaitingHasAReason(amount: nat, states: seq<State>, steps: seq<Step>)
    requires Run(amount, states, steps)
    requires !IsComplete(states[|steps|].payment) && IsMaxInFlight(states[|steps|].payment)
    ensures exists i :: 0 <= i < |states[|steps|].pending| && states[|steps|].pending[i].amount > 0
  {
    RunIsBalanced(amount, states, steps);
    SomethingIsPending(states[|steps|].pending);
  }

  /** A complete payment has fulfilled its whole source amount and has nothing in flight. */
  lemma CompleteMeansAllFulfilled(amount: nat, states: seq<State>, steps: seq<Step>)
    requires Run(amount, states, steps)
    ensures IsComplete(states[|steps|].payment)
       <==> states[|steps|].fulfilled == amount
    ensures IsComplete(states[|steps|].payment) ==> InFlight(states[|steps|].pending) == 0
  {
    RunIsBalanced(amount, states, steps);
  }

  // ---------------------------------------------------------------- slippage protection

  /** Every packet that can still be fulfilled promises at least `r` per source unit. */
  predicate Promise(r: real, packet: Pending) {
    packet.minDestination > 0 ==> packet.amount as real * r <= packet.minDestination as real
  }

  predicate Promises(r: real, pending: seq<Pending>) {
    forall i :: 0 <= i < |pending| ==> Promise(r, pending[i])
  }

  /** At least `r` per fulfilled source unit has been delivered, up to the largest amount. */
  predicate Delivered(r: real, s: State) {
    EnoughFor(r, s.fulfilled, s.payment.receipt.delivered)
  }

  predicate EnoughFor(r: real, fulfilled: nat, delivered: nat) {
    delivered == U64_MAX || fulfilled as real * r <= delivered as real
  }

  /** `r` bounds from below the rates of all packets that can be fulfilled at all. */
  ghost predicate RatesAtLeast(r: real, states: seq<State>, steps: seq<Step>)
    requires |states| > |steps|
    requires forall i :: 0 <= i < |steps| ==> Enabled(states[i], steps[i])
  {
    forall i :: 0 <= i < |steps| && steps[i].Send? ==> RateAtLeast(r, states[i], steps[i].rate)
  }

  predicate RateAtLeast(r: real, s: State, rate: real)
    requires Enabled(s, Send(rate))
  {
    rate >= r || NextPacket(s, rate).minDestination == 0
  }

  lemma MinimumIsAPromise(amount: nat, rate: real, r: real)
    requires 0.0 <= r <= rate
    ensures Promise(r, Pending(amount, MinDestination(amount, rate)))
  {
    CeilBounds(amount as real * rate);
    RealMonoLeft(r, rate, amount as real);
  }

  lemma SentPacketPromises(s: State, rate: real, r: real)
    requires Enabled(s, Send(rate)) && 0.0 <= r && RateAtLeast(r, s, rate)
    requires Promises(r, s.pending)
    ensures Promises(r, Apply(s, Send(rate)).pending)
  {
    if r <= rate {
      MinimumIsAPromise(PacketSize(s.payment, rate), rate, r);
    }
  }

  lemma OnePacketMore(r: real, fulfilled: nat, delivered: nat, packet: Pending, claimed: nat)
    requires EnoughFor(r, fulfilled, delivered) && delivered <= U64_MAX
    requires Promise(r, packet) && packet.minDestination > 0
    ensures EnoughFor(r, fulfilled + packet.amount, SatAdd(delivered, Max(packet.minDestination, claimed)))
  {
    Distribute(fulfilled as real, packet.amount as real, r);
    assert (fulfilled + packet.amount) as real == fulfilled as real + packet.amount as real;
  }

  lemma Distribute(x: real, y: real, c: real)
    ensures (x + y) * c == x * c + y * c
  {
  }

  lemma RemovalKeepsPromises(r: real, pending: seq<Pending>, i: nat)
    requires i < |pending| && Promises(r, pending)
    ensures Promises(r, RemoveAt(pending, i))
  {
    var rest := RemoveAt(pending, i);
    forall k | 0 <= k < |rest| ensures Promise(r, rest[k]) {
      assert rest[k] == if k < i then pending[k] else pending[k + 1];
    }
  }

  lemma ApplyKeepsPromises(s: State, step: Step, r: real)
    requires Enabled(s, step) && 0.0 <= r && (step.Send? ==> RateAtLeast(r, s, step.rate))
    requires Promises(r, s.pending) && Delivered(r, s) && s.payment.receipt.delivered <= U64_MAX
    ensures Promises(r, Apply(s, step).pending) && Delivered(r, Apply(s, step))
  {
    match step
    case Send(rate) => SentPacketPromises(s, rate, r);
    case Fulfil(i, claimed) =>
      RemovalKeepsPromises(r, s.pending, i);
      OnePacketMore(r, s.fulfilled, s.payment.receipt.delivered, s.pending[i], claimed);
    case Refuse(i, rejection) =>
      RemovalKeepsPromises(r, s.pending, i);
  }

  lemma {:induction false} RunKeepsPromises(amount: nat, states: seq<State>, steps: seq<Step>, r: real)
    requires Run(amount, states, steps) && RatesAtLeast(r, states, steps) && 0.0 <= r
    ensures Promises(r, states[|steps|].pending) && Delivered(r, states[|steps|])
  {
    if steps != [] {
      var n := |steps| - 1;
      RunKeepsPromises(amount, states[..n + 1], steps[..n], r);
      RunIsBalanced(amount, states[..n + 1], steps[..n]);
      ApplyKeepsPromises(states[n], steps[n], r);
    }
  }

  /** Slippage protection over a whole payment: if every rate used was at least `r`, a payment that
      completes has delivered at least ceil(r * amount), capped at the largest amount, whatever the
      receiver claimed and however the payment was split. */
  lemma SlippageProtection(amount: nat, states: seq<State>, steps: seq<Step>, r: real)
    requires Run(amount, states, steps) && RatesAtLeast(r, states, steps) && 0.0 <= r
    requires IsComplete(states[|steps|].payment)
    ensures states[|steps|].payment.receipt.delivered == U64_MAX
         || states[|steps|].payment.receipt.delivered >= Ceil(amount as real * r)
  {
    RunKeepsPromises(amount, states, steps, r);
    CompleteMeansAllFulfilled(amount, states, steps);
    EnoughMeansCeil(r, amount, states[|steps|].payment.receipt.delivered);
  }

  lemma EnoughMeansCeil(r: real, amount: nat, delivered: nat)
    requires EnoughFor(r, amount, delivered)
    ensures delivered == U64_MAX || delivered >= Ceil(amount as real * r)
  {
    if delivered != U64_MAX {
      CeilIsLeast(amount as real * r, delivered);
    }
  }

  function Pow10(n: nat): (p: real)
    ensures p > 0.0
  {
    if n == 0 then 1.0 else 10.0 * Pow10(n - 1)
  }

  /** The exchange rate less the slippage, scaled from source to destination units. */
  function ScaledRate(price: real, slippage: real, sourceScale: nat, destinationScale: nat): real {
    price * (1.0 - slippage) / Pow10(sourceScale) * Pow10(destinationScale)
  }

  /** One unit of the source asset is worth `price` units of the destination asset, and each is counted
      in steps of a power of ten. So equal scales leave the price less the slippage, each destination
      digit more multiplies the rate by ten, and each source digit more divides it by ten. */
  lemma ScalesOfTheRate(price: real, slippage: real, sourceScale: nat, destinationScale: nat)
    ensures ScaledRate(price, slippage, sourceScale, sourceScale) == price * (1.0 - slippage)
    ensures ScaledRate(price, slippage, sourceScale, destinationScale + 1)
         == 10.0 * ScaledRate(price, slippage, sourceScale, destinationScale)
    ensures 10.0 * ScaledRate(price, slippage, sourceScale + 1, destinationScale)
         == ScaledRate(price, slippage, sourceScale, destinationScale)
  {
    var net := price * (1.0 - slippage);
    var s, d := Pow10(sourceScale), Pow10(destinationScale);
    assert Pow10(destinationScale + 1) == 10.0 * d && Pow10(sourceScale + 1) == 10.0 * s;
    DivideTimes(net, s);
    TimesTen(net / s, d);
    OverTen(net, s);
    TimesTen(net / (10.0 * s), d);
    assert 10.0 * ((net / (10.0 * s)) * d) == (10.0 * (net / (10.0 * s))) * d;
  }

  lemma DivideTimes(x: real, c: real)
    requires c > 0.0
    ensures x / c * c == x
  {
  }

  lemma TimesTen(x: real, c: real)
    ensures x * (10.0 * c) == 10.0 * (x * c)
  {
  }

  lemma OverTen(x: real, c: real)
    requires c > 0.0
    ensures 10.0 * (x / (10.0 * c)) == x / c
  {
  }

  lemma ScaledRateIsMonotone(low: real, price: real, slippage: real, sourceScale: nat, destinationScale: nat)
    requires low <= price && slippage <= 1.0
    ensures ScaledRate(low, slippage, sourceScale, destinationScale)
         <= ScaledRate(price, slippage, sourceScale, destinationScale)
  {
    RealMono(low, price, 1.0 - slippage);
    RealDivMono(low * (1.0 - slippage), price * (1.0 - slippage), Pow10(sourceScale));
    RealMono(low * (1.0 - slippage) / Pow10(sourceScale), price * (1.0 - slippage) / Pow10(sourceScale),
             Pow10(destinationScale));
  }

  lemma RealDivMono(x: real, y: real, c: real)
    requires x <= y && c > 0.0
    ensures x / c <= y / c
  {
  }

  lemma ScaledRateIsNonNegative(price: real, slippage: real, sourceScale: nat, destinationScale: nat)
    requires 0.0 <= price && slippage <= 1.0
    ensures 0.0 <= ScaledRate(price, slippage, sourceScale, destinationScale)
  {
    ScaledRateIsMonotone(0.0, price, slippage, sourceScale, destinationScale);
    assert 0.0 * (1.0 - slippage) == 0.0;
  }

  /** The rate a send used: unknown (zero) until the destination asset is known, and afterwards the
      scaled rate of whatever price the provider quoted at the time. */
  predicate Quoted(step: Step, low: real, slippage: real, sourceScale: nat, destinationScale: nat, price: real) {
    step.Send? ==>
      step.rate == 0.0 || (low <= price && step.rate == ScaledRate(price, slippage, sourceScale, destinationScale))
  }

  /** The same protection in terms of quoted prices and accepted slippage: the receiver gets at least
      the source amount at the lowest quoted price, less the slippage, in its own units. */
  lemma SlippageProtectionInPrices(
    amount: nat, states: seq<State>, steps: seq<Step>, prices: seq<real>,
    low: real, slippage: real, sourceScale: nat, destinationScale: nat) returns (r: real)
    requires Run(amount, states, steps) && |prices| == |steps|
    requires 0.0 <= low && slippage <= 1.0
    requires forall i :: 0 <= i < |steps| ==> Quoted(steps[i], low, slippage, sourceScale, destinationScale, prices[i])
    requires IsComplete(states[|steps|].payment)
    ensures r == ScaledRate(low, slippage, sourceScale, destinationScale)
    ensures states[|steps|].payment.receipt.delivered == U64_MAX
         || states[|steps|].payment.receipt.delivered >= Ceil(amount as real * r)
  {
    r := LowestRate(amount, states, steps, prices, low, slippage, sourceScale, destinationScale);
    SlippageProtection(amount, states, steps, r);
  }

  /** The rate at the lowest quoted price is a lower bound on every rate used. */
  lemma LowestRate(
    amount: nat, states: seq<State>, steps: seq<Step>, prices: seq<real>,
    low: real, slippage: real, sourceScale: nat, destinationScale: nat) returns (r: real)
    requires Run(amount, states, steps) && |prices| == |steps|
    requires 0.0 <= low && slippage <= 1.0
    requires forall i :: 0 <= i < |steps| ==> Quoted(steps[i], low, slippage, sourceScale, destinationScale, prices[i])
    ensures r == ScaledRate(low, slippage, sourceScale, destinationScale)
    ensures 0.0 <= r && RatesAtLeast(r, states, steps)
  {
    r := ScaledRate(low, slippage, sourceScale, destinationScale);
    ScaledRateIsNonNegative(low, slippage, sourceScale, destinationScale);
    QuotedRatesAreEnough(amount, states, steps, prices, low, slippage, sourceScale, destinationScale, r);
  }

  lemma QuotedRatesAreEnough(
    amount: nat, states: seq<State>, steps: seq<Step>, prices: seq<real>,
    low: real, slippage: real, sourceScale: nat, destinationScale: nat, r: real)
    requires Run(amount, states, steps) && |prices| == |steps| && slippage <= 1.0
    requires forall i :: 0 <= i < |steps| ==> Quoted(steps[i], low, slippage, sourceScale, destinationScale, prices[i])
    requires r == ScaledRate(low, slippage, sourceScale, destinationScale)
    ensures RatesAtLeast(r, states, steps)
  {
    forall i | 0 <= i < |steps| && steps[i].Send? ensures RateAtLeast(r, states[i], steps[i].rate) {
      QuotedRateIsEnough(states[i], steps[i].rate, low, slippage, sourceScale, destinationScale, prices[i]);
    }
  }

  lemma QuotedRateIsEnough(
    s: State, rate: real, low: real, slippage: real, sourceScale: nat, destinationScale: nat, price: real)
    requires Enabled(s, Send(rate)) && slippage <= 1.0
    requires Quoted(Send(rate), low, slippage, sourceScale, destinationScale, price)
    ensures RateAtLeast(ScaledRate(low, slippage, sourceScale, destinationScale), s, rate)
  {
    if rate == 0.0 {
      ZeroRateHasNoMinimum(NextPacket(s, 0.0).amount);
    } else {
      ScaledRateIsMonotone(low, price, slippage, sourceScale, destinationScale);
    }
  }

  lemma ZeroRateHasNoMinimum(amount: nat)
    ensures MinDestination(amount, 0.0) == 0
  {
    assert amount as real * 0.0 == 0.0;
  }

  // ---------------------------------------------------------------- learned limits over a run

  lemma ApplyKeepsLimit(s: State, step: Step)
    requires Enabled(s, step)
    ensures NoLooser(s.payment.controller, Apply(s, step).payment.controller)
  {
    if step.Refuse? {
      LimitNeverRises(s.payment.controller, s.pending[step.index].amount, step.rejection);
    }
  }

  lemma {:induction false} LimitNeverRisesInARun(amount: nat, states: seq<State>, steps: seq<Step>, i: nat, j: nat)
    requires Run(amount, states, steps) && i <= j <= |steps|
    ensures NoLooser(states[i].payment.controller, states[j].payment.controller)
    decreases j
  {
    if i < j {
      LimitNeverRisesInARun(amount, states, steps, i, j - 1);
      ApplyKeepsLimit(states[j - 1], steps[j - 1]);
    }
  }

  /** One F08 is enough: once a node has refused a packet and said why, every packet the payment sends
      later passes that node's limit. */
  lemma OneRefusalIsEnough(amount: nat, states: seq<State>, steps: seq<Step>, i: nat, j: nat, node: Limiter)
    requires Run(amount, states, steps) && i < j < |steps|
    requires steps[i].Refuse? && steps[j].Send?
    requires node.den > 0
    requires var refused := states[i].pending[steps[i].index].amount;
             && !node.Passes(refused)
             && steps[i].rejection == AmountTooLarge(Some(node.Refusal(refused)))
    ensures node.Passes(NextPacket(states[j], steps[j].rate).amount)
  {
    var refused := states[i].pending[steps[i].index].amount;
    var learned := Learned(refused, node.Refusal(refused));
    assert MaxPacketAmount(states[i + 1].payment.controller) <= learned;
    LimitNeverRisesInARun(amount, states, steps, i + 1, j);
    PacketSizeBounds(states[j].payment, steps[j].rate);
    LearnedLimitPasses(node, refused, NextPacket(states[j], steps[j].rate).amount);
  }

  // ---------------------------------------------------------------- the mutable payment

  class StreamPayment {
    const controller: CongestionController
    const sourceAmount: nat
    var sent: nat
    var inFlight: nat
    var delivered: nat

    function Snapshot(): Payment
      reads this, controller
    {
      Payment(controller.Snapshot(), Receipt(sourceAmount, sent, inFlight, delivered))
    }

    constructor (amount: nat)
      ensures Snapshot() == NewPayment(amount) && fresh(controller)
    {
      controller := new CongestionController(amount, amount / 10);
      sourceAmount := amount;
      sent, inFlight, delivered := 0, 0, 0;
    }

    /** The size of the next packet, in reverse order of precedence. */
    method ChoosePacketSize(minSource: nat) returns (amount: nat)
      requires LeftInWindow(controller.Snapshot()) > 0
      ensures amount == SizeFrom(Snapshot(), minSource)
    {
      amount := LeftInWindow(controller.Snapshot());
      amount := Max(amount, minSource);
      var remaining := SatSub(sourceAmount, sent);
      var packets, last := remaining / amount, remaining % amount;
      if packets > 0 && last < DustThreshold(minSource) {
        amount := Spread(remaining, packets);
      }
      amount := Min(amount, MaxPacketAmount(controller.Snapshot()));
      amount := Min(amount, SatSub(sourceAmount, sent));
    }

    method ApplyPrepare(rate: real) returns (amount: nat, minDestination: nat)
      requires LeftInWindow(controller.Snapshot()) > 0
      modifies this, controller
      ensures amount == PacketSize(old(Snapshot()), rate)
      ensures minDestination == MinDestination(amount, rate)
      ensures Snapshot() == AfterSend(old(Snapshot()), amount)
    {
      amount := ChoosePacketSize(MinSource(rate));
      controller.Prepare(amount);
      sent := SatAdd(sent, amount);
      inFlight := SatAdd(inFlight, amount);
      minDestination := MinDestination(amount, rate);
    }

    method ApplyFulfill(amount: nat, destination: nat)
      requires controller.window <= U64_MAX && controller.increase <= U64_MAX
      modifies this, controller
      ensures Snapshot() == AfterFulfilled(old(Snapshot()), amount, destination)
    {
      controller.Fulfill(amount);
      inFlight := SatSub(inFlight, amount);
      delivered := SatAdd(delivered, destination);
    }

    method ApplyReject(amount: nat, rejection: Rejection)
      requires Processable(rejection)
      modifies this, controller
      ensures Snapshot() == AfterRejected(old(Snapshot()), amount, rejection)
    {
      controller.Reject(amount, rejection);
      sent := SatSub(sent, amount);
      inFlight := SatSub(inFlight, amount);
    }
  }

  lemma RunExtends(amount: nat, states: seq<State>, steps: seq<Step>, step: Step)
    requires Run(amount, states, steps) && Enabled(states[|steps|], step)
    ensures Run(amount, states + [Apply(states[|steps|], step)], steps + [step])
  {
    var states', steps' := states + [Apply(states[|steps|], step)], steps + [step];
    forall i | 0 <= i < |steps'|
      ensures Enabled(states'[i], steps'[i]) && states'[i + 1] == Apply(states'[i], steps'[i])
    {
      if i < |steps| {
        assert states'[i] == states[i] && steps'[i] == steps[i] && states'[i + 1] == states[i + 1];
      }
    }
  }

  /** What the loop does with what arrives: it takes every arrival that is possible at its time, and
      stops at the first turn that finds the payment complete. */
  function LoopSteps(s: State, arrivals: seq<Step>): seq<Step>
    decreases |arrivals|
  {
    if arrivals == [] || (arrivals[0].Send? && IsComplete(s.payment)) then []
    else if Enabled(s, arrivals[0]) then [arrivals[0]] + LoopSteps(Apply(s, arrivals[0]), arrivals[1..])
    else LoopSteps(s, arrivals[1..])
  }

  predicate LoopCloses(s: State, arrivals: seq<Step>)
    decreases |arrivals|
  {
    if arrivals == [] then false
    else if arrivals[0].Send? && IsComplete(s.payment) then true
    else if Enabled(s, arrivals[0]) then LoopCloses(Apply(s, arrivals[0]), arrivals[1..])
    else LoopCloses(s, arrivals[1..])
  }

  lemma LoopUnfolds(s: State, now: seq<Step>, later: seq<Step>)
    requires now != [] && now[1..] == later
    ensures LoopSteps(s, now) ==
            if now[0].Send? && IsComplete(s.payment) then []
            else if Enabled(s, now[0]) then [now[0]] + LoopSteps(Apply(s, now[0]), later)
            else LoopSteps(s, later)
    ensures LoopCloses(s, now) ==
            if now[0].Send? && IsComplete(s.payment) then true
            else if Enabled(s, now[0]) then LoopCloses(Apply(s, now[0]), later)
            else LoopCloses(s, later)
  {
  }

  /** One turn of the loop. */
  lemma LoopTurn(s: State, arrivals: seq<Step>, i: nat, steps: seq<Step>)
    requires i < |arrivals|
    ensures var step, now, later := arrivals[i], arrivals[i..], arrivals[i + 1..];
            if step.Send? && IsComplete(s.payment) then steps + LoopSteps(s, now) == steps && LoopCloses(s, now)
            else if Enabled(s, step) then
              && steps + LoopSteps(s, now) == steps + [step] + LoopSteps(Apply(s, step), later)
              && LoopCloses(s, now) == LoopCloses(Apply(s, step), later)
            else LoopSteps(s, now) == LoopSteps(s, later) && LoopCloses(s, now) == LoopCloses(s, later)
  {
    LoopUnfolds(s, arrivals[i..], arrivals[i + 1..]);
    if Enabled(s, arrivals[i]) {
      AppendSteps(steps, arrivals[i], LoopSteps(Apply(s, arrivals[i]), arrivals[i + 1..]));
    }
  }

  lemma AppendSteps(steps: seq<Step>, step: Step, more: seq<Step>)
    ensures steps + ([step] + more) == steps + [step] + more
  {
  }

  ghost predicate Chain(s: State, states: seq<State>, steps: seq<Step>) {
    && |states| == |steps| + 1 && states[0] == s
    && forall i :: 0 <= i < |steps| ==> Enabled(states[i], steps[i]) && states[i + 1] == Apply(states[i], steps[i])
  }

  /** A run that arrives is carried out to the last step, and one more turn closes the connection exactly
      if the payment is then complete. */
  lemma {:induction false} LoopCarriesOutRuns(s: State, states: seq<State>, steps: seq<Step>, rate: real)
    requires Chain(s, states, steps)
    ensures LoopSteps(s, steps) == steps
    ensures LoopCloses(s, steps + [Send(rate)]) <==> IsComplete(states[|steps|].payment)
    decreases |steps|
  {
    if steps == [] {
      assert steps + [Send(rate)] == [Send(rate)];
    } else {
      assert (steps + [Send(rate)])[1..] == steps[1..] + [Send(rate)];
      assert steps == [steps[0]] + steps[1..];
      LoopCarriesOutRuns(states[1], states[1..], steps[1..], rate);
    }
  }

  lemma WindowFits(s: State, step: Step)
    requires Enabled(s, step) && s.payment.controller.window <= U64_MAX
    ensures Apply(s, step).payment.controller.window <= U64_MAX
    ensures Apply(s, step).payment.controller.increase == s.payment.controller.increase
  {
  }

  /** One arrival: a packet is sent, or the reply to a pending one is processed, if that is possible. */
  method CarryOut(payment: StreamPayment, pending: seq<Pending>, step: Step, ghost s: State)
    returns (taken: bool, pending': seq<Pending>)
    requires s.payment == payment.Snapshot() && s.pending == pending
    requires payment.controller.window <= U64_MAX && payment.controller.increase <= U64_MAX
    modifies payment, payment.controller
    ensures taken <==> Enabled(s, step)
    ensures if taken then payment.Snapshot() == Apply(s, step).payment && pending' == Apply(s, step).pending
            else payment.Snapshot() == s.payment && pending' == pending
  {
    taken, pending' := false, pending;
    match step
    case Send(rate) =>
      if !IsComplete(payment.Snapshot()) && !IsMaxInFlight(payment.Snapshot()) {
        var sent, minDestination := payment.ApplyPrepare(rate);
        taken, pending' := true, pending + [Pending(sent, minDestination)];
      }
    case Fulfil(j, claimed) =>
      if j < |pending| && pending[j].minDestination > 0 && claimed <= U64_MAX {
        payment.ApplyFulfill(pending[j].amount, Max(pending[j].minDestination, claimed));
        taken, pending' := true, RemoveAt(pending, j);
      }
    case Refuse(j, rejection) =>
      if j < |pending| && Processable(rejection) {
        payment.ApplyReject(pending[j].amount, rejection);
        taken, pending' := true, RemoveAt(pending, j);
      }
  }

  /** The sender's loop. Each arrival is a turn of the loop with the rate quoted at that time, or a
      reply; replies come in any order. Whatever arrives, what the loop does is a run, every arrival
      that is possible is carried out, and it closes the connection only on a complete payment. */
  method SendMoney(amount: nat, arrivals: seq<Step>)
    returns (payment: StreamPayment, closed: bool, ghost states: seq<State>, ghost steps: seq<Step>)
    requires amount <= U64_MAX
    ensures fresh(payment) && fresh(payment.controller)
    ensures Run(amount, states, steps) && payment.Snapshot() == states[|steps|].payment
    ensures steps == LoopSteps(NewState(amount), arrivals)
    ensures closed <==> LoopCloses(NewState(amount), arrivals)
    ensures closed ==> IsComplete(payment.Snapshot())
  {
    payment := new StreamPayment(amount);
    var pending: seq<Pending> := [];
    states, steps, closed := [NewState(amount)], [], false;
    for i := 0 to |arrivals|
      invariant fresh(payment) && fresh(payment.controller)
      invariant Run(amount, states, steps)
      invariant states[|steps|].payment == payment.Snapshot() && states[|steps|].pending == pending
      invariant payment.controller.increase <= U64_MAX && payment.controller.window <= U64_MAX
      invariant steps + LoopSteps(states[|steps|], arrivals[i..]) == LoopSteps(NewState(amount), arrivals)
      invariant LoopCloses(states[|steps|], arrivals[i..]) == LoopCloses(NewState(amount), arrivals) && !closed
    {
      ghost var s, step := states[|steps|], arrivals[i];
      LoopTurn(s, arrivals, i, steps);
      if arrivals[i].Send? && IsComplete(payment.Snapshot()) {
        closed := true;
        return;
      }
      var taken: bool;
      taken, pending := CarryOut(payment, pending, arrivals[i], s);
      if taken {
        RunExtends(amount, states, steps, step);
        WindowFits(s, step);
        states, steps := states + [Apply(s, step)], steps + [step];
      }
    }
  }
}
