/** How the congestion window and the learned packet limit move over a whole STREAM payment. */
module Throttling {
  import opened Options
  import opened Congestion
  import opened StreamPayments

  // ---------------------------------------------------------------- the window

  function Capped(n: nat): nat {
    if n > U64_MAX then U64_MAX else n
  }

  function TwoToThe(n: nat): (p: nat)
    ensures p > 0
  {
    if n == 0 then 1 else 2 * TwoToThe(n - 1)
  }

  /** How many packets were fulfilled by the steps from `i` up to `j`. */
  function Fulfils(steps: seq<Step>, i: nat, j: nat): nat
    requires i <= j <= |steps|
    decreases j
  {
    if i == j then 0 else Fulfils(steps, i, j - 1) + if steps[j - 1].Fulfil? then 1 else 0
  }

  /** A T04 rejection. */
  predicate Throttles(step: Step) {
    step.Refuse? && step.rejection.InsufficientLiquidity?
  }

  /** What a step does to the window. */
  predicate Steers(c: Controller, step: Step, c': Controller) {
    && c'.increase == c.increase
    && (Throttles(step) ==> c'.phase == AvoidCongestion && Halves(c.window, c'.window))
    && (!Throttles(step) ==> c'.phase == c.phase)
    && (step.Fulfil? && c.phase == SlowStart ==> c'.window == Capped(2 * c.window))
    && (step.Fulfil? && c.phase == AvoidCongestion ==> c'.window == Capped(c.window + c.increase))
    && (!step.Fulfil? && !Throttles(step) ==> c'.window == c.window)
  }

  predicate Halves(w: nat, w': nat) {
    if w <= 1 then w' == 1 else 2 * w' <= w <= 2 * w' + 1
  }

  lemma StepSteers(s: State, step: Step)
    requires Enabled(s, step)
    ensures Steers(s.payment.controller, step, Apply(s, step).payment.controller)
  {
  }

  ghost predicate Steered(amount: nat, cs: seq<Controller>, steps: seq<Step>) {
    && amount <= U64_MAX && |cs| == |steps| + 1
    && cs[0].phase == SlowStart && cs[0].window == amount && cs[0].increase == amount / 10
    && forall i :: 0 <= i < |steps| ==> Steers(cs[i], steps[i], cs[i + 1])
  }

  function Controllers(states: seq<State>): (cs: seq<Controller>)
    ensures |cs| == |states| && forall i :: 0 <= i < |cs| ==> cs[i] == states[i].payment.controller
  {
    seq(|states|, i requires 0 <= i < |states| => states[i].payment.controller)
  }

  lemma RunIsSteered(amount: nat, states: seq<State>, steps: seq<Step>)
    requires Run(amount, states, steps)
    ensures Steered(amount, Controllers(states), steps)
  {
    var cs := Controllers(states);
    forall i | 0 <= i < |steps| ensures Steers(cs[i], steps[i], cs[i + 1]) {
      StepSteers(states[i], steps[i]);
    }
  }

  lemma DoubleCapped(power: nat, amount: nat)
    requires power > 0
    ensures Capped(2 * Capped(power * amount)) == Capped((2 * power) * amount)
  {
    assert (2 * power) * amount == 2 * (power * amount);
  }

  lemma {:induction false} Doubles(amount: nat, cs: seq<Controller>, steps: seq<Step>, j: nat)
    requires Steered(amount, cs, steps) && j <= |steps| && forall i :: 0 <= i < j ==> !Throttles(steps[i])
    ensures cs[j].phase == SlowStart && cs[j].window == Capped(TwoToThe(Fulfils(steps, 0, j)) * amount)
  {
    if j > 0 {
      Doubles(amount, cs, steps, j - 1);
      assert Steers(cs[j - 1], steps[j - 1], cs[j]);
      DoubleCapped(TwoToThe(Fulfils(steps, 0, j - 1)), amount);
    }
  }

  /** Slow start: until the first T04 the window is the source amount, doubled once per fulfilled
      packet, up to the largest amount. */
  lemma SlowStartDoubles(amount: nat, states: seq<State>, steps: seq<Step>, j: nat)
    requires Run(amount, states, steps) && j <= |steps| && forall i :: 0 <= i < j ==> !Throttles(steps[i])
    ensures states[j].payment.controller.window == Capped(TwoToThe(Fulfils(steps, 0, j)) * amount)
  {
    RunIsSteered(amount, states, steps);
    Doubles(amount, Controllers(states), steps, j);
  }

  lemma {:induction false} IncreaseIsATenth(amount: nat, cs: seq<Controller>, steps: seq<Step>, i: nat)
    requires Steered(amount, cs, steps) && i <= |steps|
    ensures cs[i].increase == amount / 10 && cs[i].window <= U64_MAX
  {
    if i > 0 {
      IncreaseIsATenth(amount, cs, steps, i - 1);
      assert Steers(cs[i - 1], steps[i - 1], cs[i]);
    }
  }

  /** The window after `k` more fulfilled packets in congestion avoidance. */
  function Grown(start: nat, k: nat, increase: nat): nat {
    Capped(start + k * increase)
  }

  lemma {:induction false} Grows(amount: nat, cs: seq<Controller>, steps: seq<Step>, i: nat, j: nat)
    requires Steered(amount, cs, steps) && i < j <= |steps|
    requires Throttles(steps[i]) && forall k :: i < k < j ==> !Throttles(steps[k])
    ensures cs[j].phase == AvoidCongestion
    ensures cs[j].window == Grown(cs[i + 1].window, Fulfils(steps, i + 1, j), cs[0].increase)
    decreases j
  {
    assert Steers(cs[j - 1], steps[j - 1], cs[j]);
    IncreaseIsATenth(amount, cs, steps, j);
    IncreaseIsATenth(amount, cs, steps, j - 1);
    if j == i + 1 {
      NotGrown(cs[j].window, cs[0].increase);
    } else {
      Grows(amount, cs, steps, i, j - 1);
      GrownByAStep(cs[j - 1], steps[j - 1], cs[j], cs[i + 1].window, Fulfils(steps, i + 1, j - 1));
    }
  }

  lemma NotGrown(start: nat, increase: nat)
    requires start <= U64_MAX
    ensures Grown(start, 0, increase) == start
  {
  }

  lemma GrownByAStep(c: Controller, step: Step, c': Controller, start: nat, k: nat)
    requires Steers(c, step, c') && !Throttles(step) && c.phase == AvoidCongestion
    requires c.window == Grown(start, k, c.increase)
    ensures c'.window == Grown(start, if step.Fulfil? then k + 1 else k, c.increase)
  {
    assert (k + 1) * c.increase == k * c.increase + c.increase;
  }

  /** Congestion avoidance: from a T04 until the next one, every fulfilled packet adds a tenth of the
      source amount to the window, up to the largest amount. */
  lemma AdditiveIncrease(amount: nat, states: seq<State>, steps: seq<Step>, i: nat, j: nat)
    requires Run(amount, states, steps) && i < j <= |steps|
    requires Throttles(steps[i]) && forall k :: i < k < j ==> !Throttles(steps[k])
    ensures states[j].payment.controller.window
         == Grown(states[i + 1].payment.controller.window, Fulfils(steps, i + 1, j), amount / 10)
  {
    RunIsSteered(amount, states, steps);
    Grows(amount, Controllers(states), steps, i, j);
  }

  /** A T04 in a run halves the window, never below 1, and from then on slow start is over. */
  lemma ThrottledForGood(amount: nat, states: seq<State>, steps: seq<Step>, i: nat, j: nat)
    requires Run(amount, states, steps) && i < j <= |steps| && Throttles(steps[i])
    ensures Halves(states[i].payment.controller.window, states[i + 1].payment.controller.window)
    ensures states[j].payment.controller.phase == AvoidCongestion
  {
    RunIsSteered(amount, states, steps);
    assert Steers(Controllers(states)[i], steps[i], Controllers(states)[i + 1]);
    StaysThrottled(amount, Controllers(states), steps, i, j);
  }

  lemma {:induction false} StaysThrottled(amount: nat, cs: seq<Controller>, steps: seq<Step>, i: nat, j: nat)
    requires Steered(amount, cs, steps) && i < j <= |steps| && Throttles(steps[i])
    ensures cs[j].phase == AvoidCongestion
    decreases j
  {
    assert Steers(cs[j - 1], steps[j - 1], cs[j]);
    if j > i + 1 {
      StaysThrottled(amount, cs, steps, i, j - 1);
    }
  }

  // ---------------------------------------------------------------- the learned limit

  /** Unless the product overflows, the learned limit is the exact quotient rounded down. */
  lemma LearnedIsTight(amount: nat, details: Details)
    requires details.amountReceived > 0 && amount * details.maxAmount <= U64_MAX
    ensures var learned := Learned(amount, details);
            learned * details.amountReceived <= amount * details.maxAmount < (learned + 1) * details.amountReceived
  {
    FloorDiv(amount * details.maxAmount, details.amountReceived);
    Fits(amount * details.maxAmount);
  }

  lemma Fits(x: nat)
    requires x <= U64_MAX
    ensures x % (U64_MAX + 1) == x
  {
  }

  /** A node that sees the amount that was sent is learned exactly: what passes is what it takes. */
  lemma HonestLimitIsLearned(refused: nat, limit: nat)
    requires limit < refused && refused * limit <= U64_MAX
    ensures Learned(refused, Details(refused, limit)) == limit
  {
    var learned := Learned(refused, Details(refused, limit));
    LearnedIsTight(refused, Details(refused, limit));
    if learned < limit {
      MulMono(learned + 1, limit, refused);
    } else if limit < learned {
      MulMono(limit + 1, learned, refused);
    }
  }

  /** What one step does to the limit: an F08 that says how much was seen and how much is taken may
      lower it to what that means for us, one that does not say halves a known limit, and nothing else
      touches it. */
  lemma LimitOfAStep(s: State, step: Step)
    requires Enabled(s, step)
    ensures var limit, limit' := s.payment.controller.maxPacket, Apply(s, step).payment.controller.maxPacket;
            if step.Refuse? && step.rejection.AmountTooLarge? && step.rejection.details.Some? then
              var learned := Learned(s.pending[step.index].amount, step.rejection.details.value);
              && limit'.Some? && limit'.value <= learned && (limit.Some? ==> limit'.value <= limit.value)
              && (limit'.value == learned || limit' == limit)
            else if step.Refuse? && step.rejection.AmountTooLarge? && limit.Some? then
              limit'.Some? && 2 * limit'.value <= limit.value <= 2 * limit'.value + 1
            else limit' == limit
  {
  }

  /** A payment has no limit until some node has said what it takes. */
  lemma {:induction false} NoLimitUntilRefused(amount: nat, states: seq<State>, steps: seq<Step>)
    requires Run(amount, states, steps)
    requires forall i :: 0 <= i < |steps| && steps[i].Refuse? && steps[i].rejection.AmountTooLarge? ==>
               steps[i].rejection.details.None?
    ensures states[|steps|].payment.controller.maxPacket.None?
  {
    if steps != [] {
      var n := |steps| - 1;
      NoLimitUntilRefused(amount, states[..n + 1], steps[..n]);
      LimitOfAStep(states[n], steps[n]);
    }
  }

  // ---------------------------------------------------------------- when packets may be sent

  /** In every run a packet may be sent exactly while the packets in flight do not fill the window and
      something is left of the source amount. */
  lemma SendIsEnabledIff(amount: nat, states: seq<State>, steps: seq<Step>, rate: real)
    requires Run(amount, states, steps)
    ensures var s := states[|steps|];
            Enabled(s, Send(rate)) <==>
            InFlight(s.pending) < s.payment.controller.window && s.fulfilled + InFlight(s.pending) < amount
  {
    RunIsBalanced(amount, states, steps);
  }

  // ---------------------------------------------------------------- what was delivered

  /** What a step adds to the delivered amount: the receiver's claim, but at least the minimum. */
  function Gain(s: State, step: Step): nat
    requires Enabled(s, step)
  {
    if !step.Fulfil? then 0
    else if s.pending[step.index].minDestination < step.claimed then step.claimed
    else s.pending[step.index].minDestination
  }

  lemma GainOfAStep(s: State, step: Step)
    requires Enabled(s, step) && s.payment.receipt.delivered <= U64_MAX
    ensures Apply(s, step).payment.receipt.delivered == Capped(s.payment.receipt.delivered + Gain(s, step))
  {
  }

  /** What the first `j` steps of a run add up to. */
  ghost function TotalGain(amount: nat, states: seq<State>, steps: seq<Step>, j: nat): nat
    requires Run(amount, states, steps) && j <= |steps|
  {
    if j == 0 then 0 else TotalGain(amount, states, steps, j - 1) + Gain(states[j - 1], steps[j - 1])
  }

  lemma CappedSum(total: nat, gain: nat)
    ensures Capped(Capped(total) + gain) == Capped(total + gain)
  {
  }

  /** The receipt shows exactly the sum over the fulfilled packets, up to the largest amount. */
  lemma {:induction false} DeliveredIsTheSum(amount: nat, states: seq<State>, steps: seq<Step>, j: nat)
    requires Run(amount, states, steps) && j <= |steps|
    ensures states[j].payment.receipt.delivered == Capped(TotalGain(amount, states, steps, j))
  {
    if j > 0 {
      DeliveredIsTheSum(amount, states, steps, j - 1);
      GainOfAStep(states[j - 1], steps[j - 1]);
      CappedSum(TotalGain(amount, states, steps, j - 1), Gain(states[j - 1], steps[j - 1]));
    }
  }
}
