/** What each event does to balances, and what the phase of a request or settlement says about the
    events that led to it. Together with conservation this says when money moves and when it comes back. */
module BalanceHistories {
  import opened Options
  import opened Text
  import opened CcpTypes
  import opened Balances

  // ---------------------------------------------------------------- single events

  /** Only account `id` changes its net balance, and by `change`. */
  predicate OnlyNetChanges(w: World, w': World, id: AccountId, change: int) {
    && w'.balances.Keys == w.balances.Keys && id in w.balances
    && Net(w'.balances[id]) == Net(w.balances[id]) + change
    && forall a :: a in w.balances && a != id ==> w'.balances[a] == w.balances[a]
  }

  /** Nothing is taken for an empty packet. Any other one is refused, without effect, exactly if it would
      take the payer below the minimum; otherwise its incoming amount is taken from the payer alone. */
  lemma SendTakesItsAmount(config: Config, w: World, from: AccountId, to: AccountId, incoming: nat, outgoing: nat)
    requires WellFormed(w) && from in w.balances && to in w.balances
    ensures var w' := Next(config, w, Send(from, to, incoming, outgoing));
            var min := config(from).minBalance;
            if incoming == 0 && outgoing == 0 then w' == w
            else if incoming > 0 && min.Some? && Net(w.balances[from]) - incoming < min.value then w' == w
            else && w'.requests == w.requests + [Request(from, to, incoming, outgoing, Forwarded)]
                 && w'.settlements == w.settlements && w'.credits == w.credits
                 && OnlyNetChanges(w, w', from, 0 - incoming)
  {
    PrepareIsExact(config(from), w.balances[from], incoming);
  }

  /** The task of a rejected request returns the incoming amount to the payer alone. */
  lemma RollbackReturnsTheAmount(config: Config, w: World, i: nat)
    requires Enabled(w, RunReject(i, true))
    ensures var w' := Next(config, w, RunReject(i, true));
            && OnlyNetChanges(w, w', w.requests[i].from, w.requests[i].incoming)
            && w'.balances[w.requests[i].from].prepaid == w.balances[w.requests[i].from].prepaid
            && w'.settlements == w.settlements && w'.credits == w.credits
  {
  }

  /** The settlement of `amount` that is started for an account, if there is anything to settle. */
  function Started(config: Config, id: AccountId, amount: nat): seq<Settlement> {
    if amount == 0 then []
    else if config(id).hasEngine then [Settlement(id, amount, Sending)]
    else [Settlement(id, amount, Dropped)]
  }

  /** The task of a fulfilled request credits the outgoing amount to the receiver alone. If that takes the
      balance to the threshold, everything above `settle_to` is settled at once. */
  lemma FulfillCreditsTheAmount(config: Config, w: World, i: nat)
    requires Enabled(w, RunFulfill(i, true))
    ensures var w', to := Next(config, w, RunFulfill(i, true)), w.requests[i].to;
            var balance := w.balances[to].balance + w.requests[i].outgoing;
            var settings := config(to);
            var due := settings.settleThreshold.Some? && settings.settleTo.Some?
                       && settings.settleThreshold.value > settings.settleTo.value
                       && balance >= settings.settleThreshold.value;
            var settled := if due then balance - settings.settleTo.value else 0;
            && OnlyNetChanges(w, w', to, w.requests[i].outgoing - settled)
            && settled >= 0 && w'.settlements == w.settlements + Started(config, to, settled)
            && w'.balances[to].prepaid == w.balances[to].prepaid && w'.credits == w.credits
  {
    SettlementIsExact(config(w.requests[i].to), w.balances[w.requests[i].to], w.requests[i].outgoing);
  }

  /** A delayed settlement settles exactly what the balance exceeds `settle_to` by, if the account settles
      at all; whatever the threshold, and nothing else happens. */
  lemma DelayedSettlesTheExcess(config: Config, w: World, id: AccountId)
    requires id in w.balances
    ensures var w', settings := Next(config, w, Delayed(id)), config(id);
            var settles := settings.settleThreshold.Some? && settings.settleTo.Some?
                           && settings.settleThreshold.value > settings.settleTo.value
                           && w.balances[id].balance > settings.settleTo.value;
            var excess := if settles then w.balances[id].balance - settings.settleTo.value else 0;
            && OnlyNetChanges(w, w', id, -excess) && w'.balances[id].prepaid == w.balances[id].prepaid
            && excess >= 0 && w'.settlements == w.settlements + Started(config, id, excess)
            && w'.requests == w.requests && w'.credits == w.credits
  {
    SettlementIsExact(config(id), w.balances[id], 0);
  }

  /** A refund returns the amount of the settlement to its account alone. */
  lemma RefundReturnsTheAmount(config: Config, w: World, j: nat)
    requires Enabled(w, RunRefund(j, true))
    ensures var w' := Next(config, w, RunRefund(j, true));
            && OnlyNetChanges(w, w', w.settlements[j].account, w.settlements[j].amount)
            && w'.requests == w.requests && w'.credits == w.credits
  {
  }

  /** An incoming settlement with a new idempotency key is credited, debt first; the key is remembered. */
  lemma ReceiveCreditsTheAmount(config: Config, w: World, id: AccountId, amount: nat, key: Text)
    requires id in w.balances
    ensures var w' := Next(config, w, Receive(id, amount, key));
            && key in w'.keys && (key in w.keys ==> w' == w)
            && (key !in w.keys ==> OnlyNetChanges(w, w', id, amount) && w'.credits == w.credits + [Credit(id, amount)])
  {
    CreditIsExact(w.balances[id], amount);
  }

  // ---------------------------------------------------------------- runs, from the end

  lemma {:induction false} RunSplits(config: Config, w: World, es: seq<Event>, e: Event)
    requires IsRun(config, w, es + [e])
    ensures IsRun(config, w, es) && Enabled(After(config, w, es), e)
    ensures After(config, w, es + [e]) == Next(config, After(config, w, es), e)
    decreases |es|
  {
    if es == [] {
      assert es + [e] == [e];
    } else {
      assert (es + [e])[0] == es[0] && (es + [e])[1..] == es[1..] + [e];
      RunSplits(config, Next(config, w, es[0]), es[1..], e);
    }
  }

  lemma LastEvent(config: Config, w: World, es: seq<Event>)
    requires es != [] && IsRun(config, w, es)
    ensures var n := |es| - 1;
            && IsRun(config, w, es[..n]) && Enabled(After(config, w, es[..n]), es[n])
            && After(config, w, es) == Next(config, After(config, w, es[..n]), es[n])
  {
    var n := |es| - 1;
    assert es == es[..n] + [es[n]];
    RunSplits(config, w, es[..n], es[n]);
  }

  // ---------------------------------------------------------------- requests

  predicate AboutRequest(e: Event, i: nat) {
    match e
    case ReplyFulfill(k) => k == i
    case ReplyReject(k) => k == i
    case RunFulfill(k, _) => k == i
    case RunReject(k, _) => k == i
    case _ => false
  }

  /** The last event that was about request `i`. */
  function LastAboutRequest(es: seq<Event>, i: nat): Option<Event> {
    if es == [] then None
    else if AboutRequest(es[|es| - 1], i) then Some(es[|es| - 1])
    else LastAboutRequest(es[..|es| - 1], i)
  }

  /** The phase of a request is what the last event about it left. */
  ghost predicate PhaseTells(r: Request, last: Option<Event>, i: nat) {
    && (r.phase == Forwarded <==> last == None)
    && (r.phase == FulfillDue <==> last == Some(ReplyFulfill(i)) && r.outgoing > 0)
    && (r.phase == Done <==> last == Some(ReplyFulfill(i)) && r.outgoing == 0)
    && (r.phase == RejectDue <==> last == Some(ReplyReject(i)))
    && (r.phase == Applied <==> last == Some(RunFulfill(i, true)))
    && (r.phase == RolledBack <==> last == Some(RunReject(i, true)))
    && (r.phase == Lost <==> last == Some(RunFulfill(i, false)) || last == Some(RunReject(i, false)))
  }

  ghost predicate RequestsTell(w: World, es: seq<Event>) {
    && (forall i: nat :: i < |w.requests| ==> PhaseTells(w.requests[i], LastAboutRequest(es, i), i))
    && (forall i: nat :: i >= |w.requests| ==> LastAboutRequest(es, i) == None)
  }

  lemma EventKeepsRequestsTelling(config: Config, w: World, es: seq<Event>, e: Event)
    requires RequestsTell(w, es) && Enabled(w, e)
    ensures RequestsTell(Next(config, w, e), es + [e])
  {
    var w' := Next(config, w, e);
    assert (es + [e])[..|es|] == es;
    forall i: nat
      ensures LastAboutRequest(es + [e], i) == if AboutRequest(e, i) then Some(e) else LastAboutRequest(es, i)
    {
    }
    forall i: nat | i < |w.requests| ensures PhaseTells(w'.requests[i], LastAboutRequest(es + [e], i), i) {
      RequestAfter(config, w, e, i);
    }
  }

  /** An event that is not about a request leaves it as it is; one that is about it moves its phase. */
  lemma RequestAfter(config: Config, w: World, e: Event, i: nat)
    requires Enabled(w, e) && i < |w.requests|
    ensures var w', r := Next(config, w, e), w.requests[i];
            && |w'.requests| >= |w.requests| && w'.requests[i].(phase := r.phase) == r
            && (!AboutRequest(e, i) ==> w'.requests[i] == r)
            && (AboutRequest(e, i) ==> PhaseTells(w'.requests[i], Some(e), i))
  {
  }

  /** In every run, for every request: the phase is what the last event about it left. */
  lemma {:induction false} RequestPhaseIsItsHistory(config: Config, w: World, es: seq<Event>)
    requires w.requests == [] && IsRun(config, w, es)
    ensures RequestsTell(After(config, w, es), es)
    decreases |es|
  {
    if es != [] {
      var n := |es| - 1;
      LastEvent(config, w, es);
      RequestPhaseIsItsHistory(config, w, es[..n]);
      EventKeepsRequestsTelling(config, After(config, w, es[..n]), es[..n], es[n]);
      assert es == es[..n] + [es[n]];
    }
  }

  /** Whatever else runs in between: once the next service has rejected a request, the task that rolls it
      back can run until it has run, and then it returns the amount; afterwards it never can again. */
  lemma RejectedIsRolledBackOnce(config: Config, w: World, es: seq<Event>, i: nat)
    requires Fresh(w) && IsRun(config, w, es)
    ensures LastAboutRequest(es, i) == Some(ReplyReject(i)) ==>
              var w' := After(config, w, es);
              && Enabled(w', RunReject(i, true))
              && OnlyNetChanges(w', Next(config, w', RunReject(i, true)), w'.requests[i].from, w'.requests[i].incoming)
    ensures LastAboutRequest(es, i) == Some(RunReject(i, true)) ==>
              forall stored :: !Enabled(After(config, w, es), RunReject(i, stored))
  {
    RequestPhaseIsItsHistory(config, w, es);
    RunStaysWellFormed(config, w, es);
    var w' := After(config, w, es);
    if LastAboutRequest(es, i) == Some(ReplyReject(i)) {
      assert i < |w'.requests| && PhaseTells(w'.requests[i], LastAboutRequest(es, i), i);
      RollbackReturnsTheAmount(config, w', i);
    }
  }

  /** Likewise the task of a fulfilled request with something to pass on. */
  lemma FulfilledIsAppliedOnce(config: Config, w: World, es: seq<Event>, i: nat)
    requires Fresh(w) && IsRun(config, w, es)
    ensures LastAboutRequest(es, i) == Some(ReplyFulfill(i)) ==>
              var w' := After(config, w, es);
              i < |w'.requests| && (Enabled(w', RunFulfill(i, true)) <==> w'.requests[i].outgoing > 0)
    ensures LastAboutRequest(es, i) == Some(RunFulfill(i, true)) ==>
              forall stored :: !Enabled(After(config, w, es), RunFulfill(i, stored))
  {
    RequestPhaseIsItsHistory(config, w, es);
    RunStaysWellFormed(config, w, es);
    var w' := After(config, w, es);
    if LastAboutRequest(es, i) == Some(ReplyFulfill(i)) {
      assert i < |w'.requests| && PhaseTells(w'.requests[i], LastAboutRequest(es, i), i);
    }
  }

  lemma {:induction false} RunStaysWellFormed(config: Config, w: World, es: seq<Event>)
    requires WellFormed(w) && IsRun(config, w, es)
    ensures WellFormed(After(config, w, es)) && After(config, w, es).balances.Keys == w.balances.Keys
    decreases |es|
  {
    if es != [] {
      NextKeepsWellFormed(config, w, es[0]);
      RunStaysWellFormed(config, Next(config, w, es[0]), es[1..]);
    }
  }

  // ---------------------------------------------------------------- a rejected payment leaves no trace

  function Without<T>(xs: seq<T>, i: nat): seq<T>
    requires i < |xs|
  {
    xs[..i] + xs[i + 1..]
  }

  lemma {:induction false} SumWithout<T>(xs: seq<T>, i: nat, f: T -> int)
    requires i < |xs|
    ensures Sum(xs, f) == Sum(Without(xs, i), f) + f(xs[i])
  {
    if i == 0 {
      assert Without(xs, 0) == xs[1..];
    } else {
      SumWithout(xs[1..], i - 1, f);
      assert Without(xs, i)[1..] == Without(xs[1..], i - 1) && Without(xs, i)[0] == xs[0];
    }
  }

  /** Once a request was rolled back, every balance is what all the others account for, whatever the
      order in which everything happened. */
  lemma RolledBackLeavesNoTrace(config: Config, w: World, es: seq<Event>, i: nat, a: AccountId)
    requires Fresh(w) && a in w.balances && IsRun(config, w, es)
    requires LastAboutRequest(es, i) == Some(RunReject(i, true))
    ensures var w' := After(config, w, es);
            && i < |w'.requests| && a in w'.balances
            && var others := Without(w'.requests, i);
               Net(w'.balances[a]) == Net(w.balances[a]) - Sum(others, Taken(a)) + Sum(others, Given(a))
                                      - Sum(w'.settlements, Outstanding(a)) - Sum(w'.settlements, Vanished(a))
                                      + Sum(w'.credits, PaidIn(a))
  {
    var w' := After(config, w, es);
    RequestPhaseIsItsHistory(config, w, es);
    assert i < |w'.requests| && PhaseTells(w'.requests[i], LastAboutRequest(es, i), i);
    BalancesAreConserved(config, w, es, a);
    SumWithout(w'.requests, i, Taken(a));
    SumWithout(w'.requests, i, Given(a));
  }

  /** In particular a payment that is sent, rejected and rolled back leaves every net balance as it was. */
  lemma RejectedPaymentIsUndone(
    config: Config, w: World, from: AccountId, to: AccountId, incoming: nat, outgoing: nat, a: AccountId)
    requires WellFormed(w) && from in w.balances && to in w.balances && a in w.balances
    requires incoming > 0 || outgoing > 0
    requires incoming > 0 ==> CanPay(config(from), w.balances[from], incoming)
    ensures var i := |w.requests|;
            var es := [Send(from, to, incoming, outgoing), ReplyReject(i), RunReject(i, true)];
            && IsRun(config, w, es) && a in After(config, w, es).balances
            && Net(After(config, w, es).balances[a]) == Net(w.balances[a])
  {
    var i := |w.requests|;
    var es := [Send(from, to, incoming, outgoing), ReplyReject(i), RunReject(i, true)];
    SendTakesItsAmount(config, w, from, to, incoming, outgoing);
    var w1 := Next(config, w, es[0]);
    var w2 := Next(config, w1, es[1]);
    assert w2.balances == w1.balances && w2.requests[i].from == from && w2.requests[i].incoming == incoming;
    RollbackReturnsTheAmount(config, w2, i);
    ThreeSteps(config, w, es);
  }

  // ---------------------------------------------------------------- settlements

  predicate AboutSettlement(e: Event, j: nat) {
    match e
    case EngineReplies(k, _) => k == j
    case RunRefund(k, _) => k == j
    case _ => false
  }

  function LastAboutSettlement(es: seq<Event>, j: nat): Option<Event> {
    if es == [] then None
    else if AboutSettlement(es[|es| - 1], j) then Some(es[|es| - 1])
    else LastAboutSettlement(es[..|es| - 1], j)
  }

  /** The phase of a settlement is what the last event about it left; without a settlement engine there
      is none. */
  ghost predicate SettlementTells(config: Config, s: Settlement, last: Option<Event>, j: nat) {
    && (s.phase == Dropped <==> last == None && !config(s.account).hasEngine)
    && (s.phase == Sending <==> last == None && config(s.account).hasEngine)
    && (s.phase == Sent <==> last == Some(EngineReplies(j, true)))
    && (s.phase == RefundDue <==> last == Some(EngineReplies(j, false)))
    && (s.phase == Refunded <==> last == Some(RunRefund(j, true)))
    && (s.phase == RefundLost <==> last == Some(RunRefund(j, false)))
  }

  /** What the engine said about a settlement that is over or waits for its refund. */
  predicate EngineSaid(s: Settlement, es: seq<Event>, j: nat) {
    && (EngineReplies(j, false) in es <==> s.phase == RefundDue || s.phase == Refunded || s.phase == RefundLost)
    && (EngineReplies(j, true) in es <==> s.phase == Sent)
  }

  ghost predicate SettlementsTell(config: Config, w: World, es: seq<Event>) {
    && (forall j: nat :: j < |w.settlements| ==>
          && SettlementTells(config, w.settlements[j], LastAboutSettlement(es, j), j)
          && EngineSaid(w.settlements[j], es, j))
    && (forall j: nat :: j >= |w.settlements| ==>
          LastAboutSettlement(es, j) == None && EngineReplies(j, false) !in es && EngineReplies(j, true) !in es)
  }

  /** An event that is not about a settlement leaves it as it is; one that is about it moves its phase. */
  lemma SettlementAfter(config: Config, w: World, e: Event, j: nat)
    requires Enabled(w, e) && j < |w.settlements|
    ensures var w', s := Next(config, w, e), w.settlements[j];
            && |w'.settlements| >= |w.settlements| && w'.settlements[j].(phase := s.phase) == s
            && (!AboutSettlement(e, j) ==> w'.settlements[j] == s)
            && (AboutSettlement(e, j) ==> SettlementTells(config, w'.settlements[j], Some(e), j))
            && (e.EngineReplies? && e.j == j ==> s.phase == Sending)
            && (e.RunRefund? && e.j == j ==> s.phase == RefundDue)
  {
  }

  /** A settlement that appears has just been started. */
  lemma NewSettlement(config: Config, w: World, e: Event, j: nat)
    requires Enabled(w, e) && |w.settlements| <= j < |Next(config, w, e).settlements|
    ensures var s := Next(config, w, e).settlements[j];
            s.phase == if config(s.account).hasEngine then Sending else Dropped
    ensures !e.EngineReplies? && !e.RunRefund?
  {
  }

  lemma EventKeepsSettlementsTelling(config: Config, w: World, es: seq<Event>, e: Event)
    requires SettlementsTell(config, w, es) && Enabled(w, e)
    ensures SettlementsTell(config, Next(config, w, e), es + [e])
  {
    var w' := Next(config, w, e);
    var es' := es + [e];
    assert es'[..|es|] == es;
    forall j: nat
      ensures LastAboutSettlement(es', j) == if AboutSettlement(e, j) then Some(e) else LastAboutSettlement(es, j)
    {
    }
    forall j: nat | j < |w'.settlements|
      ensures SettlementTells(config, w'.settlements[j], LastAboutSettlement(es', j), j)
      ensures EngineSaid(w'.settlements[j], es', j)
    {
      if j < |w.settlements| {
        SettlementAfter(config, w, e, j);
        assert SettlementTells(config, w.settlements[j], LastAboutSettlement(es, j), j);
      } else {
        NewSettlement(config, w, e, j);
      }
    }
    forall j: nat | j >= |w'.settlements|
      ensures LastAboutSettlement(es', j) == None && EngineReplies(j, false) !in es' && EngineReplies(j, true) !in es'
    {
    }
  }

  /** In every run, for every settlement: the phase is what the last event about it left, and it is
      refunded, or waits for it, exactly if its engine reported a failure. */
  lemma {:induction false} SettlementPhaseIsItsHistory(config: Config, w: World, es: seq<Event>)
    requires w.settlements == [] && IsRun(config, w, es)
    ensures SettlementsTell(config, After(config, w, es), es)
    decreases |es|
  {
    if es != [] {
      var n := |es| - 1;
      LastEvent(config, w, es);
      SettlementPhaseIsItsHistory(config, w, es[..n]);
      EventKeepsSettlementsTelling(config, After(config, w, es[..n]), es[..n], es[n]);
      assert es == es[..n] + [es[n]];
    }
  }

  /** A refund happens only after the engine reported a failure and never after a success, and a reported
      failure can be refunded, once, whatever else runs in between. */
  lemma RefundedExactlyAfterFailure(config: Config, w: World, es: seq<Event>, j: nat)
    requires Fresh(w) && IsRun(config, w, es)
    ensures LastAboutSettlement(es, j) == Some(RunRefund(j, true)) ==>
              EngineReplies(j, false) in es && EngineReplies(j, true) !in es
    ensures LastAboutSettlement(es, j) == Some(EngineReplies(j, false)) ==>
              var w' := After(config, w, es);
              && Enabled(w', RunRefund(j, true))
              && OnlyNetChanges(w', Next(config, w', RunRefund(j, true)), w'.settlements[j].account,
                                w'.settlements[j].amount)
    ensures LastAboutSettlement(es, j) != Some(EngineReplies(j, false)) ==>
              forall stored :: !Enabled(After(config, w, es), RunRefund(j, stored))
  {
    SettlementPhaseIsItsHistory(config, w, es);
    RunStaysWellFormed(config, w, es);
    var w' := After(config, w, es);
    if j < |w'.settlements| {
      assert SettlementTells(config, w'.settlements[j], LastAboutSettlement(es, j), j);
      assert EngineSaid(w'.settlements[j], es, j);
      if LastAboutSettlement(es, j) == Some(EngineReplies(j, false)) {
        RefundReturnsTheAmount(config, w', j);
      }
    }
  }

  // ---------------------------------------------------------------- idempotency keys

  lemma {:induction false} KeyIsRemembered(config: Config, w: World, es: seq<Event>, key: Text)
    requires IsRun(config, w, es) && key in w.keys && ForgetKey(key) !in es
    ensures key in After(config, w, es).keys
    decreases |es|
  {
    if es != [] {
      assert es[0] in es;
      KeyIsRemembered(config, Next(config, w, es[0]), es[1..], key);
    }
  }

  /** An incoming settlement is credited once per key, however often it is repeated, for whatever account
      and amount, until the key is forgotten. */
  lemma KeyCreditsOnce(
    config: Config, w: World, id: AccountId, amount: nat, key: Text, es: seq<Event>, again: Event)
    requires IsRun(config, w, [Receive(id, amount, key)] + es) && ForgetKey(key) !in es
    requires again.Receive? && again.key == key
    ensures var w' := After(config, w, [Receive(id, amount, key)] + es);
            Enabled(w', again) ==> Next(config, w', again) == w'
  {
    var run := [Receive(id, amount, key)] + es;
    assert run[0] == Receive(id, amount, key) && run[1..] == es;
    ReceiveCreditsTheAmount(config, w, id, amount, key);
    KeyIsRemembered(config, Next(config, w, run[0]), es, key);
  }

  /** After that it is credited again. */
  lemma ForgottenKeyCreditsAgain(config: Config, w: World, id: AccountId, amount: nat, key: Text)
    requires id in w.balances
    ensures var w1 := Next(config, w, ForgetKey(key));
            && w1.balances == w.balances && w1.requests == w.requests && w1.settlements == w.settlements
            && OnlyNetChanges(w1, Next(config, w1, Receive(id, amount, key)), id, amount)
  {
    ReceiveCreditsTheAmount(config, Next(config, w, ForgetKey(key)), id, amount, key);
  }
}
