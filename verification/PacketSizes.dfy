/** What the next packet of a STREAM payment carries, told in terms of the window, the minimum source
    amount, the learned limit and the amount left, and what a whole payment then looks like. */
module PacketSizes {
  import opened Options
  import opened Congestion
  import opened StreamPayments

  // ---------------------------------------------------------------- the two minimum amounts

  /** The minimum destination amount is the least whole number that is worth the packet at the given
      rate; a number that does not fit 64 bits counts as zero. */
  lemma MinDestinationIsLeast(amount: nat, rate: real)
    requires rate >= 0.0
    ensures var min := MinDestination(amount, rate);
            if amount as real * rate <= U64_MAX as real
            then && min <= U64_MAX && min as real >= amount as real * rate
                 && (min == 0 || (min - 1) as real < amount as real * rate)
            else min == 0
  {
    RealMono(0.0, amount as real, rate);
    CeilBounds(amount as real * rate);
    if amount as real * rate <= U64_MAX as real {
      CeilIsLeast(amount as real * rate, U64_MAX);
    }
  }

  /** 0.1% of the packet is worth a whole destination unit. */
  predicate MarginIsAUnit(amount: int, rate: real) {
    amount as real * (rate * 0.001) >= 1.0
  }

  /** The minimum source amount is the least packet of which 0.1% is worth a whole destination unit; if
      that does not fit 64 bits, or there is no rate yet, it is zero. */
  lemma MinSourceIsLeast(rate: real)
    requires rate >= 0.0
    ensures var min := MinSource(rate);
            if rate > 0.0 && MarginIsAUnit(U64_MAX, rate)
            then 0 < min <= U64_MAX && MarginIsAUnit(min, rate) && !MarginIsAUnit(min - 1, rate)
            else min == 0
  {
    if rate > 0.0 {
      var inverse := 1.0 / (rate * 0.001);
      InverseIsPositive(rate * 0.001);
      CeilBounds(inverse);
      MarginAt(U64_MAX, rate);
      MarginAt(Ceil(inverse), rate);
      MarginAt(Ceil(inverse) - 1, rate);
      if inverse <= U64_MAX as real {
        CeilIsLeast(inverse, U64_MAX);
      }
    }
  }

  lemma MarginAt(amount: int, rate: real)
    requires rate > 0.0
    ensures MarginIsAUnit(amount, rate) <==> 1.0 / (rate * 0.001) <= amount as real
  {
    var step := rate * 0.001;
    InverseIsPositive(step);
    if 1.0 / step <= amount as real {
      RealMono(1.0 / step, amount as real, step);
    } else {
      BelowInverse(amount as real, 1.0 / step, step);
    }
  }

  lemma BelowInverse(x: real, inverse: real, step: real)
    requires step > 0.0 && inverse * step == 1.0
    ensures x < inverse ==> x * step < 1.0
  {
    if x < inverse {
      var gap := inverse - x;
      PositiveProduct(gap, step);
      Distribute(gap, x, step);
      assert (gap + x) * step == inverse * step;
      assert gap * step + x * step == 1.0;
    }
  }

  lemma PositiveProduct(x: real, y: real)
    requires x > 0.0 && y > 0.0
    ensures x * y > 0.0
  {
  }

  // ---------------------------------------------------------------- the size of a packet

  function Least(a: nat, b: nat): nat {
    if a < b then a else b
  }

  function Limited(amount: nat, limit: Option<nat>): nat {
    if limit.Some? && limit.value < amount then limit.value else amount
  }

  /** What is asked for before the limits apply: all that is left in the window, but at least the
      minimum source amount. */
  function Wanted(p: Payment, minSource: nat): nat {
    var left := p.controller.window - p.controller.inFlight;
    if left < minSource then minSource else left
  }

  lemma ThresholdIsSixFifths(left: nat, minSource: nat)
    requires left < U64_MAX
    ensures left < DustThreshold(minSource) <==> 5 * left < 6 * minSource
  {
  }

  /** s is the least size of which n packets cover the amount. */
  predicate CoversIn(amount: nat, n: nat, s: nat) {
    amount <= n * s && (s == 0 || n * (s - 1) < amount)
  }

  lemma SpreadCovers(remaining: nat, n: nat)
    requires n > 0 && remaining + n - 1 <= U64_MAX
    ensures CoversIn(remaining, n, Spread(remaining, n))
  {
    var s := (remaining + n - 1) / n;
    FloorDiv(remaining + n - 1, n);
    assert WrapAdd(remaining, n - 1) == remaining + n - 1;
    assert n * (s - 1) == n * s - n;
  }

  lemma QuotientIsZero(a: nat, b: nat)
    requires a < b
    ensures a / b == 0
  {
  }

  lemma RemainderIsSmall(a: nat, b: nat)
    requires 0 < b && a <= U64_MAX && b <= U64_MAX
    ensures a % b < U64_MAX
  {
  }

  /** What a packet carries, exactly. With enough left for more than what is wanted, and nothing
      less than 1.2 times the minimum source amount left over at the end, it carries what is wanted.
      If less would be left over, the amount is spread evenly over the packets before. With less left
      it carries all that is left. The learned limit caps each of these, and spreading goes wrong,
      to nothing, if its sum does not fit 64 bits. */
  lemma PacketIsExactly(p: Payment, rate: real)
    requires p.controller.inFlight < p.controller.window <= U64_MAX
    requires p.receipt.sent <= p.receipt.sourceAmount <= U64_MAX
    ensures var wanted := Wanted(p, MinSource(rate));
            var available := p.receipt.sourceAmount - p.receipt.sent;
            var limit := p.controller.maxPacket;
            var packet := PacketSize(p, rate);
            && wanted > 0
            && (available < wanted ==> packet == Limited(available, limit))
            && (wanted <= available && 5 * (available % wanted) >= 6 * MinSource(rate) ==>
                  packet == Limited(wanted, limit))
            && (wanted <= available && 5 * (available % wanted) < 6 * MinSource(rate) ==>
                  var n := available / wanted;
                  if available + n - 1 <= U64_MAX
                  then exists s: nat :: CoversIn(available, n, s) && s <= available && packet == Limited(s, limit)
                  else packet == 0)
  {
    var minSource := MinSource(rate);
    var wanted, available := Wanted(p, minSource), p.receipt.sourceAmount - p.receipt.sent;
    assert wanted == Max(LeftInWindow(p.controller), minSource) && available == Available(p.receipt);
    RemainderIsSmall(available, wanted);
    ThresholdIsSixFifths(available % wanted, minSource);
    if available < wanted {
      QuotientIsZero(available, wanted);
    } else {
      QuotientIsPositive(available, wanted);
      if 5 * (available % wanted) < 6 * minSource {
        SpreadPacket(p, minSource, wanted, available);
      }
    }
  }

  lemma SpreadPacket(p: Payment, minSource: nat, wanted: nat, available: nat)
    requires p.controller.inFlight < p.controller.window && p.receipt.sent <= p.receipt.sourceAmount <= U64_MAX
    requires wanted == Max(LeftInWindow(p.controller), minSource) && available == Available(p.receipt)
    requires 0 < wanted <= available && available / wanted > 0 && available % wanted < DustThreshold(minSource)
    ensures var n, packet := available / wanted, SizeFrom(p, minSource);
            if available + n - 1 <= U64_MAX
            then exists s: nat ::
                   CoversIn(available, n, s) && s <= available && packet == Limited(s, p.controller.maxPacket)
            else packet == 0
  {
    var n := available / wanted;
    QuotientAtMost(available, wanted);
    if available + n - 1 <= U64_MAX {
      var s := Spread(available, n);
      SpreadCovers(available, n);
      CoverIsAtMost(available, n, s);
      assert s <= U64_MAX;
    } else {
      WrappedSpreadIsZero(available, n);
    }
  }

  lemma CoverIsAtMost(amount: nat, n: nat, s: nat)
    requires n > 0 && CoversIn(amount, n, s)
    ensures s <= amount
  {
    if s > amount {
      MulMono(1, n, s - 1);
    }
  }

  /** So a packet is not needlessly small or large: unless spreading overflows, it is at least what is
      wanted as far as the limit and the amount left allow, and it is less than twice that. */
  lemma PacketIsAboutWhatIsWanted(p: Payment, rate: real)
    requires p.controller.inFlight < p.controller.window <= U64_MAX
    requires p.receipt.sent <= p.receipt.sourceAmount <= U64_MAX
    requires var wanted := Wanted(p, MinSource(rate));
             var available := p.receipt.sourceAmount - p.receipt.sent;
             wanted > 0 && !DustOverflows(available, wanted, MinSource(rate))
    ensures var wanted := Wanted(p, MinSource(rate));
            var available := p.receipt.sourceAmount - p.receipt.sent;
            && Limited(Least(wanted, available), p.controller.maxPacket) <= PacketSize(p, rate) < 2 * wanted
            && PacketSize(p, rate) <= available
  {
    var minSource := MinSource(rate);
    var wanted, available := Wanted(p, minSource), p.receipt.sourceAmount - p.receipt.sent;
    PacketIsExactly(p, rate);
    if wanted <= available && 5 * (available % wanted) < 6 * minSource {
      RemainderIsSmall(available, wanted);
      ThresholdIsSixFifths(available % wanted, minSource);
      var n := available / wanted;
      QuotientIsPositive(available, wanted);
      var s: nat :| CoversIn(available, n, s) && s <= available
                    && PacketSize(p, rate) == Limited(s, p.controller.maxPacket);
      SpreadIsGood(available, wanted, n);
      SpreadCovers(available, n);
      CoverIsUnique(available, n, s, Spread(available, n));
    }
  }

  lemma CoverIsUnique(amount: nat, n: nat, s: nat, t: nat)
    requires n > 0 && CoversIn(amount, n, s) && CoversIn(amount, n, t)
    ensures s == t
  {
    if s < t {
      MulMono(s, t - 1, n);
    } else if t < s {
      MulMono(t, s - 1, n);
    }
  }

  /** Before the rate is known the first packet of a payment carries the whole amount. */
  lemma FirstPacketIsEverything(amount: nat)
    requires 0 < amount <= U64_MAX
    ensures PacketSize(NewPayment(amount), 0.0) == amount
  {
    PacketIsExactly(NewPayment(amount), 0.0);
    assert amount % amount == 0;
    assert amount / amount == 1;
  }
}
