/** 64-bit amounts and the congestion controller of a STREAM sender: slow start, then additive
    increase and multiplicative decrease, plus the packet limit learned from F08 rejections. */
module Congestion {
  import opened Options

  // ---------------------------------------------------------------- u64 arithmetic

  function WrapAdd(a: nat, b: nat): nat {
    (a + b) % (U64_MAX + 1)
  }

  function WrapSub(a: nat, b: nat): nat {
    (a - b) % (U64_MAX + 1)
  }

  function SatAdd(a: nat, b: nat): nat {
    if a + b > U64_MAX then U64_MAX else a + b
  }

  function SatSub(a: nat, b: nat): nat {
    if a < b then 0 else a - b
  }

  function Max(a: nat, b: nat): nat {
    if a > b then a else b
  }

  // ---------------------------------------------------------------- the controller as a value

  datatype Phase = SlowStart | AvoidCongestion

  /** What a node that refuses a packet as too large says: the amount it saw and the most it takes. */
  datatype Details = Details(amountReceived: nat, maxAmount: nat)

  datatype Rejection =
    | InsufficientLiquidity                  // T04
    | AmountTooLarge(details: Option<Details>)  // F08
    | OtherError

  datatype Controller = Controller(phase: Phase, increase: nat, maxPacket: Option<nat>, inFlight: nat, window: nat)

  function NewController(start: nat, increase: nat): Controller {
    Controller(SlowStart, increase, None, 0, start)
  }

  function MaxPacketAmount(c: Controller): nat {
    if c.maxPacket.Some? then c.maxPacket.value else U64_MAX
  }

  function LeftInWindow(c: Controller): nat {
    SatSub(c.window, c.inFlight)
  }

  function AfterPrepare(c: Controller, amount: nat): Controller {
    if amount > 0 then c.(inFlight := WrapAdd(c.inFlight, amount)) else c
  }

  function AfterFulfill(c: Controller, amount: nat): Controller {
    c.(inFlight := WrapSub(c.inFlight, amount),
       window := if c.phase.SlowStart? then SatAdd(c.window, c.window) else SatAdd(c.window, c.increase))
  }

  /** `prepare_amount * max_amount / amount_received` in 64-bit arithmetic. */
  function Learned(amount: nat, details: Details): nat
    requires details.amountReceived > 0
  {
    (amount * details.maxAmount) % (U64_MAX + 1) / details.amountReceived
  }

  /** A rejection the controller can process: the reported amount is not zero. */
  predicate Processable(rejection: Rejection) {
    rejection.AmountTooLarge? && rejection.details.Some? ==> rejection.details.value.amountReceived > 0
  }

  function AfterReject(c: Controller, amount: nat, rejection: Rejection): Controller
    requires Processable(rejection)
  {
    var c1 := c.(inFlight := WrapSub(c.inFlight, amount));
    match rejection
    case InsufficientLiquidity =>
      c1.(phase := AvoidCongestion, window := Max(c.window / 2, 1))
    case AmountTooLarge(Some(details)) =>
      var learned := Learned(amount, details);
      c1.(maxPacket := Some(if c.maxPacket.Some? then Min(c.maxPacket.value, learned) else learned))
    case AmountTooLarge(None) =>
      if c.maxPacket.Some? then c1.(maxPacket := Some(c.maxPacket.value / 2)) else c1
    case OtherError => c1
  }

  // ---------------------------------------------------------------- what the updates keep

  /** The window stays between 1 and the largest amount. */
  predicate WindowOpen(c: Controller) {
    1 <= c.window <= U64_MAX
  }

  lemma WindowStaysOpen(c: Controller, amount: nat, rejection: Rejection)
    requires WindowOpen(c) && Processable(rejection)
    ensures WindowOpen(AfterPrepare(c, amount))
    ensures WindowOpen(AfterFulfill(c, amount))
    ensures WindowOpen(AfterReject(c, amount, rejection))
  {
  }

  /** Once a limit is known it stays known and never rises. */
  predicate NoLooser(before: Controller, after: Controller) {
    before.maxPacket.Some? ==> after.maxPacket.Some? && after.maxPacket.value <= before.maxPacket.value
  }

  lemma LimitNeverRises(c: Controller, amount: nat, rejection: Rejection)
    requires Processable(rejection)
    ensures NoLooser(c, AfterPrepare(c, amount))
    ensures NoLooser(c, AfterFulfill(c, amount))
    ensures NoLooser(c, AfterReject(c, amount, rejection))
  {
  }

  // ---------------------------------------------------------------- learning a node's limit

  /** A node down the path that sees floor(num * amount / den) of a packet and takes at most `limit`. */
  datatype Limiter = Limiter(num: nat, den: nat, limit: nat) {
    function Sees(amount: nat): nat
      requires den > 0
    {
      num * amount / den
    }

    predicate Passes(amount: nat)
      requires den > 0
    {
      Sees(amount) <= limit
    }

    function Refusal(amount: nat): Details
      requires den > 0
    {
      Details(Sees(amount), limit)
    }
  }

  lemma FloorDiv(a: nat, b: nat)
    requires b > 0
    ensures b * (a / b) <= a < b * (a / b) + b
  {
  }

  lemma MulMono(a: int, b: int, c: int)
    requires a <= b && 0 <= c
    ensures a * c <= b * c
  {
  }

  lemma LearnedIsAtMost(amount: nat, details: Details)
    requires details.amountReceived > 0
    ensures Learned(amount, details) * details.amountReceived <= amount * details.maxAmount
  {
    Wrapped(amount * details.maxAmount);
    FloorDiv((amount * details.maxAmount) % (U64_MAX + 1), details.amountReceived);
  }

  lemma Wrapped(x: nat)
    ensures x % (U64_MAX + 1) <= x
  {
  }

  /** One refusal is enough: a packet no larger than the learned limit passes the node that refused,
      whatever rounding the node's rate involves. Wrap-around of the product only lowers the limit. */
  lemma LearnedLimitPasses(node: Limiter, refused: nat, later: nat)
    requires node.den > 0
    requires !node.Passes(refused)
    requires later <= Learned(refused, node.Refusal(refused))
    ensures node.Passes(later)
  {
    var n, d, limit := node.num, node.den, node.limit;
    var seen := node.Sees(refused);
    LearnedIsAtMost(refused, node.Refusal(refused));
    MulMono(later, Learned(refused, node.Refusal(refused)), seen);
    assert later * seen <= refused * limit;
    FloorDiv(n * refused, d);
    assert n * refused < d * (seen + 1);
    StaysBelow(n, d, limit, seen, refused, later);
    FloorDiv(n * later, d);
    if !node.Passes(later) {
      MulMono(limit + 1, n * later / d, d);
    }
  }

  /** The arithmetic core: cross-multiplied, a packet within the learned limit stays below limit + 1. */
  lemma StaysBelow(n: nat, d: nat, limit: nat, seen: nat, refused: nat, later: nat)
    requires d > 0 && seen > limit
    requires later * seen <= refused * limit
    requires n * refused < d * (seen + 1)
    ensures n * later < d * (limit + 1)
  {
    ScaleBoth(n, later, seen, refused, limit);
    MulMono(n * refused, d * (seen + 1), limit);
    Regroup(d, limit, seen);
    MulCancel(n * later, d * (limit + 1), seen);
  }

  lemma ScaleBoth(n: nat, later: nat, seen: nat, refused: nat, limit: nat)
    requires later * seen <= refused * limit
    ensures (n * later) * seen <= (n * refused) * limit
  {
    MulAssoc(n, later, seen);
    MulAssoc(n, refused, limit);
    MulMono(later * seen, refused * limit, n);
  }

  lemma Regroup(d: nat, limit: nat, seen: nat)
    requires d > 0 && seen > limit
    ensures (d * (seen + 1)) * limit < (d * (limit + 1)) * seen
  {
    MulAssoc(d, seen + 1, limit);
    MulAssoc(d, limit + 1, seen);
    assert (seen + 1) * limit < (limit + 1) * seen;
    MulStrict((seen + 1) * limit, (limit + 1) * seen, d);
  }

  lemma MulAssoc(a: int, b: int, c: int)
    ensures (a * b) * c == a * (b * c)
  {
  }

  lemma MulStrict(a: int, b: int, c: int)
    requires a < b && 0 < c
    ensures c * a < c * b
  {
  }

  lemma MulCancel(a: int, b: int, c: int)
    requires 0 < c && a * c < b * c
    ensures a < b
  {
    if b <= a {
      MulMono(b, a, c);
    }
  }

  // ---------------------------------------------------------------- the mutable controller

  class CongestionController {
    var phase: Phase
    const increase: nat
    var maxPacket: Option<nat>
    var inFlight: nat
    var window: nat

    function Snapshot(): Controller
      reads this
    {
      Controller(phase, increase, maxPacket, inFlight, window)
    }

    constructor (start: nat, increase: nat)
      ensures Snapshot() == NewController(start, increase)
    {
      phase := SlowStart;
      this.increase := increase;
      maxPacket := None;
      inFlight := 0;
      window := start;
    }

    method Prepare(amount: nat)
      modifies this
      ensures Snapshot() == AfterPrepare(old(Snapshot()), amount)
    {
      if amount > 0 {
        inFlight := WrapAdd(inFlight, amount);
      }
    }

    method Fulfill(amount: nat)
      requires window <= U64_MAX && increase <= U64_MAX
      modifies this
      ensures Snapshot() == AfterFulfill(old(Snapshot()), amount)
    {
      inFlight := WrapSub(inFlight, amount);
      if phase == SlowStart {
        if U64_MAX / 2 >= window {
          window := window * 2;
        } else {
          window := U64_MAX;
        }
      } else {
        if U64_MAX - increase >= window {
          window := window + increase;
        } else {
          window := U64_MAX;
        }
      }
    }

    method Reject(amount: nat, rejection: Rejection)
      requires Processable(rejection)
      modifies this
      ensures Snapshot() == AfterReject(old(Snapshot()), amount, rejection)
    {
      inFlight := WrapSub(inFlight, amount);
      match rejection
      case InsufficientLiquidity =>
        phase := AvoidCongestion;
        window := Max(window / 2, 1);
      case AmountTooLarge(Some(details)) =>
        var learned := Learned(amount, details);
        if maxPacket.Some? {
          maxPacket := Some(Min(maxPacket.value, learned));
        } else {
          maxPacket := Some(learned);
        }
      case AmountTooLarge(None) =>
        if maxPacket.Some? {
          maxPacket := Some(maxPacket.value / 2);
        }
      case OtherError =>
    }
  }
}
