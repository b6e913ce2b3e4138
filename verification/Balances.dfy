/** Balance accounting: what requests, the tasks they spawn, settlements and refunds do to account
    balances, in any interleaving. */
module Balances {
  import opened Options
  import opened Text
  import opened CcpTypes

  /** `balance` and `prepaid_amount`. What the account holder sees is their sum. */
  datatype Balance = Balance(balance: int, prepaid: int)

  datatype Settings = Settings(
    minBalance: Option<int>, settleThreshold: Option<int>, settleTo: Option<int>, hasEngine: bool)

  function Net(b: Balance): int {
    b.balance + b.prepaid
  }

  /** The settings under which a balance can be settled at all. */
  predicate CanSettle(l: Settings) {
    l.settleThreshold.Some? && l.settleTo.Some? && l.settleThreshold.value > l.settleTo.value
  }

  // ---------------------------------------------------------------- the store operations

  /** `update_balances_for_prepare`: refused below the minimum; taken from the prepaid amount first. */
  function Prepared(l: Settings, b: Balance, amount: nat): Option<Balance> {
    if amount == 0 then Some(b)
    else if l.minBalance.Some? && b.balance + b.prepaid - amount < l.minBalance.value then None
    else if b.prepaid >= amount then Some(b.(prepaid := b.prepaid - amount))
    else if b.prepaid > 0 then Some(Balance(b.balance - (amount - b.prepaid), 0))
    else Some(b.(balance := b.balance - amount))
  }

  /** `update_balances_for_fulfill`: the new balance and the amount to settle. */
  function Fulfilled(l: Settings, b: Balance, amount: nat): (Balance, nat) {
    var balance := b.balance + amount;
    if CanSettle(l) && balance >= l.settleThreshold.value
    then (b.(balance := l.settleTo.value), balance - l.settleTo.value)
    else (b.(balance := balance), 0)
  }

  /** `update_balances_for_reject` and `refund_settlement` */
  function Returned(b: Balance, amount: nat): Balance {
    b.(balance := b.balance + amount)
  }

  /** `update_balances_for_delayed_settlement` */
  function SettledLater(l: Settings, b: Balance): (Balance, nat) {
    if CanSettle(l) && b.balance >= l.settleTo.value
    then (b.(balance := l.settleTo.value), b.balance - l.settleTo.value)
    else (b, 0)
  }

  /** `update_balance_for_incoming_settlement`: pays off what is owed, the rest is prepaid. */
  function Credited(b: Balance, amount: nat): Balance {
    if b.balance >= 0 then b.(prepaid := b.prepaid + amount)
    else if -b.balance >= amount then b.(balance := b.balance + amount)
    else Balance(0, b.prepaid + (amount + b.balance))
  }

  /** A prepare is refused exactly if it would take the net balance below the minimum; otherwise it
      takes exactly its amount, and the balance proper is touched only once nothing is prepaid. */
  lemma PrepareIsExact(l: Settings, b: Balance, amount: nat)
    requires b.prepaid >= 0
    ensures Prepared(l, b, amount).None? <==> amount > 0 && l.minBalance.Some? && Net(b) - amount < l.minBalance.value
    ensures Prepared(l, b, amount).Some? ==>
              var b' := Prepared(l, b, amount).value;
              && Net(b') == Net(b) - amount && 0 <= b'.prepaid <= b.prepaid && b'.balance <= b.balance
              && (b'.balance < b.balance ==> b'.prepaid == 0)
  {
  }

  /** A settlement is worth what leaves the balance, and is positive exactly if it was due. */
  lemma SettlementIsExact(l: Settings, b: Balance, amount: nat)
    ensures var (b', settle) := Fulfilled(l, b, amount);
            && Net(b') == Net(b) + amount - settle && b'.prepaid == b.prepaid
            && (settle > 0 <==> CanSettle(l) && b.balance + amount >= l.settleThreshold.value)
            && (settle > 0 ==> b'.balance == l.settleTo.value)
    ensures var (b', settle) := SettledLater(l, b);
            && Net(b') == Net(b) - settle && b'.prepaid == b.prepaid && b'.balance <= b.balance
            && (settle > 0 <==> CanSettle(l) && b.balance > l.settleTo.value)
            && (settle > 0 ==> b'.balance == l.settleTo.value)
  {
  }

  /** An incoming settlement adds exactly its amount, and becomes prepaid only as far as nothing is owed. */
  lemma CreditIsExact(b: Balance, amount: nat)
    ensures var b' := Credited(b, amount);
            && Net(b') == Net(b) + amount && b'.balance >= b.balance && b'.prepaid >= b.prepaid
            && (b'.prepaid > b.prepaid ==> b'.balance >= 0) && (b'.balance > b.balance ==> b'.balance <= 0)
  {
  }

  // ---------------------------------------------------------------- requests and settlements in progress

  /** Forwarded: waiting for the next service. FulfillDue and RejectDue: the task is spawned but has not
      run. A task whose store call fails ends without effect, as Lost. */
  datatype RequestPhase = Forwarded | FulfillDue | Applied | RejectDue | RolledBack | Done | Lost

  datatype Request = Request(from: AccountId, to: AccountId, incoming: nat, outgoing: nat, phase: RequestPhase)

  /** Dropped: the account has no settlement engine, so the amount is neither sent nor refunded. */
  datatype SettlementPhase = Sending | Sent | RefundDue | Refunded | RefundLost | Dropped

  datatype Settlement = Settlement(account: AccountId, amount: nat, phase: SettlementPhase)

  datatype Credit = Credit(account: AccountId, amount: nat)

  datatype World = World(balances: map<AccountId, Balance>, requests: seq<Request>, settlements: seq<Settlement>,
                         credits: seq<Credit>, keys: set<Text>)

  datatype Event =
    | Send(from: AccountId, to: AccountId, incoming: nat, outgoing: nat)
    | ReplyFulfill(i: nat)
    | ReplyReject(i: nat)
    | RunFulfill(i: nat, stored: bool)
    | RunReject(i: nat, stored: bool)
    | Delayed(id: AccountId)
    | EngineReplies(j: nat, accepted: bool)
    | RunRefund(j: nat, stored: bool)
    | Receive(id: AccountId, amount: nat, key: Text)
    | ForgetKey(key: Text)

  type Config = AccountId -> Settings

  predicate InPhase(w: World, i: nat, phase: RequestPhase) {
    i < |w.requests| && w.requests[i].phase == phase
  }

  predicate Settling(w: World, j: nat, phase: SettlementPhase) {
    j < |w.settlements| && w.settlements[j].phase == phase
  }

  predicate Enabled(w: World, e: Event) {
    match e
    case Send(from, to, _, _) => from in w.balances && to in w.balances
    case ReplyFulfill(i) => InPhase(w, i, Forwarded)
    case ReplyReject(i) => InPhase(w, i, Forwarded)
    case RunFulfill(i, _) => InPhase(w, i, FulfillDue) && w.requests[i].to in w.balances
    case RunReject(i, _) => InPhase(w, i, RejectDue) && w.requests[i].from in w.balances
    case Delayed(id) => id in w.balances
    case EngineReplies(j, _) => Settling(w, j, Sending)
    case RunRefund(j, _) => Settling(w, j, RefundDue) && w.settlements[j].account in w.balances
    case Receive(id, _, _) => id in w.balances
    case ForgetKey(_) => true
  }

  function MoveRequest(w: World, i: nat, phase: RequestPhase): World
    requires i < |w.requests|
  {
    w.(requests := w.requests[i := w.requests[i].(phase := phase)])
  }

  function MoveSettlement(w: World, j: nat, phase: SettlementPhase): World
    requires j < |w.settlements|
  {
    w.(settlements := w.settlements[j := w.settlements[j].(phase := phase)])
  }

  /** `settle_or_rollback`, up to the call of the engine. */
  function StartSettlement(config: Config, w: World, id: AccountId, amount: nat): World {
    if amount == 0 then w
    else w.(settlements := w.settlements + [Settlement(id, amount, if config(id).hasEngine then Sending else Dropped)])
  }

  function Next(config: Config, w: World, e: Event): World
    requires Enabled(w, e)
  {
    match e
    case Send(from, to, incoming, outgoing) =>
      if incoming == 0 && outgoing == 0 then w
      else (
        match Prepared(config(from), w.balances[from], incoming)
        case None => w
        case Some(b) =>
          w.(balances := w.balances[from := b],
             requests := w.requests + [Request(from, to, incoming, outgoing, Forwarded)])
      )
    case ReplyFulfill(i) => MoveRequest(w, i, if w.requests[i].outgoing > 0 then FulfillDue else Done)
    case ReplyReject(i) => MoveRequest(w, i, RejectDue)
    case RunFulfill(i, stored) =>
      if !stored then MoveRequest(w, i, Lost)
      else
        var r := w.requests[i];
        var (b, amount) := Fulfilled(config(r.to), w.balances[r.to], r.outgoing);
        StartSettlement(config, MoveRequest(w, i, Applied).(balances := w.balances[r.to := b]), r.to, amount)
    case RunReject(i, stored) =>
      if !stored then MoveRequest(w, i, Lost)
      else
        var r := w.requests[i];
        MoveRequest(w, i, RolledBack).(balances := w.balances[r.from := Returned(w.balances[r.from], r.incoming)])
    case Delayed(id) =>
      var (b, amount) := SettledLater(config(id), w.balances[id]);
      StartSettlement(config, w.(balances := w.balances[id := b]), id, amount)
    case EngineReplies(j, accepted) => MoveSettlement(w, j, if accepted then Sent else RefundDue)
    case RunRefund(j, stored) =>
      if !stored then MoveSettlement(w, j, RefundLost)
      else
        var s := w.settlements[j];
        MoveSettlement(w, j, Refunded).(balances := w.balances[s.account := Returned(w.balances[s.account], s.amount)])
    case Receive(id, amount, key) =>
      if key in w.keys then w
      else w.(balances := w.balances[id := Credited(w.balances[id], amount)],
              credits := w.credits + [Credit(id, amount)], keys := w.keys + {key})
    case ForgetKey(key) => w.(keys := w.keys - {key})
  }

  predicate IsRun(config: Config, w: World, es: seq<Event>)
    decreases |es|
  {
    es == [] || (Enabled(w, es[0]) && IsRun(config, Next(config, w, es[0]), es[1..]))
  }

  function After(config: Config, w: World, es: seq<Event>): World
    requires IsRun(config, w, es)
    decreases |es|
  {
    if es == [] then w else After(config, Next(config, w, es[0]), es[1..])
  }

  // ---------------------------------------------------------------- sums over what is in progress

  function Sum<T>(xs: seq<T>, f: T -> int): int {
    if xs == [] then 0 else f(xs[0]) + Sum(xs[1..], f)
  }

  lemma {:induction false} SumSnoc<T>(xs: seq<T>, x: T, f: T -> int)
    ensures Sum(xs + [x], f) == Sum(xs, f) + f(x)
  {
    if xs == [] {
      assert xs + [x] == [x];
      assert Sum([x], f) == f(x) + Sum([], f);
    } else {
      assert (xs + [x])[1..] == xs[1..] + [x];
      SumSnoc(xs[1..], x, f);
    }
  }

  lemma {:induction false} SumUpdate<T>(xs: seq<T>, i: nat, x: T, f: T -> int)
    requires i < |xs|
    ensures Sum(xs[i := x], f) == Sum(xs, f) - f(xs[i]) + f(x)
  {
    if i == 0 {
      assert xs[0 := x][1..] == xs[1..];
    } else {
      assert xs[i := x][1..] == xs[1..][i - 1 := x];
      SumUpdate(xs[1..], i - 1, x, f);
    }
  }

  /** Incoming amounts taken from an account and not rolled back. */
  function Taken(a: AccountId): Request -> int {
    (r: Request) => if r.from == a && r.phase != RolledBack then r.incoming else 0
  }

  /** Outgoing amounts credited to an account. */
  function Given(a: AccountId): Request -> int {
    (r: Request) => if r.to == a && r.phase == Applied then r.outgoing else 0
  }

  /** Settlements sent, still being sent, or failed and not yet refunded. */
  function Outstanding(a: AccountId): Settlement -> int {
    (s: Settlement) => if s.account == a && s.phase != Refunded && s.phase != Dropped then s.amount else 0
  }

  function Vanished(a: AccountId): Settlement -> int {
    (s: Settlement) => if s.account == a && s.phase == Dropped then s.amount else 0
  }

  function PaidIn(a: AccountId): Credit -> int {
    (c: Credit) => if c.account == a then c.amount else 0
  }

  /** What the history says account `a` should hold, on top of where it started. */
  function Ledger(w: World, a: AccountId): int {
    - Sum(w.requests, Taken(a)) + Sum(w.requests, Given(a))
    - Sum(w.settlements, Outstanding(a)) + Sum(w.credits, PaidIn(a))
  }

  function DroppedTotal(w: World, a: AccountId): int {
    Sum(w.settlements, Vanished(a))
  }

  /** The net balance and the history move together. */
  predicate Balanced(w: World, start: int, a: AccountId) {
    a in w.balances && Net(w.balances[a]) == start + Ledger(w, a) - DroppedTotal(w, a)
  }

  predicate WellFormed(w: World) {
    && (forall id :: id in w.balances ==> w.balances[id].prepaid >= 0)
    && (forall i :: 0 <= i < |w.requests| ==> w.requests[i].from in w.balances && w.requests[i].to in w.balances)
    && (forall j :: 0 <= j < |w.settlements| ==> w.settlements[j].account in w.balances && w.settlements[j].amount > 0)
  }

  lemma MoveRequestSums(w: World, i: nat, phase: RequestPhase, a: AccountId)
    requires i < |w.requests|
    ensures var r, r' := w.requests[i], w.requests[i].(phase := phase);
            && DroppedTotal(MoveRequest(w, i, phase), a) == DroppedTotal(w, a)
            && Ledger(MoveRequest(w, i, phase), a)
               == Ledger(w, a) + Taken(a)(r) - Taken(a)(r') - Given(a)(r) + Given(a)(r')
  {
    SumUpdate(w.requests, i, w.requests[i].(phase := phase), Taken(a));
    SumUpdate(w.requests, i, w.requests[i].(phase := phase), Given(a));
  }

  lemma MoveSettlementSums(w: World, j: nat, phase: SettlementPhase, a: AccountId)
    requires j < |w.settlements|
    ensures var s, s' := w.settlements[j], w.settlements[j].(phase := phase);
            && DroppedTotal(MoveSettlement(w, j, phase), a) == DroppedTotal(w, a) - Vanished(a)(s) + Vanished(a)(s')
            && Ledger(MoveSettlement(w, j, phase), a) == Ledger(w, a) + Outstanding(a)(s) - Outstanding(a)(s')
  {
    SumUpdate(w.settlements, j, w.settlements[j].(phase := phase), Outstanding(a));
    SumUpdate(w.settlements, j, w.settlements[j].(phase := phase), Vanished(a));
  }

  lemma StartSettlementSums(config: Config, w: World, id: AccountId, amount: nat, a: AccountId)
    ensures var w' := StartSettlement(config, w, id, amount);
            Ledger(w', a) - DroppedTotal(w', a) == Ledger(w, a) - DroppedTotal(w, a) - (if id == a then amount else 0)
  {
    if amount > 0 {
      var s := Settlement(id, amount, if config(id).hasEngine then Sending else Dropped);
      SumSnoc(w.settlements, s, Outstanding(a));
      SumSnoc(w.settlements, s, Vanished(a));
    }
  }

  lemma SendKeepsBalanced(config: Config, w: World, e: Event, start: int, a: AccountId)
    requires WellFormed(w) && Balanced(w, start, a) && Enabled(w, e) && e.Send?
    ensures Balanced(Next(config, w, e), start, a)
  {
    PrepareIsExact(config(e.from), w.balances[e.from], e.incoming);
    var r := Request(e.from, e.to, e.incoming, e.outgoing, Forwarded);
    SumSnoc(w.requests, r, Taken(a));
    SumSnoc(w.requests, r, Given(a));
  }

  lemma FulfillKeepsBalanced(config: Config, w: World, e: Event, start: int, a: AccountId)
    requires WellFormed(w) && Balanced(w, start, a) && Enabled(w, e) && e.RunFulfill?
    ensures Balanced(Next(config, w, e), start, a)
  {
    var r := w.requests[e.i];
    if e.stored {
      var (b, amount) := Fulfilled(config(r.to), w.balances[r.to], r.outgoing);
      SettlementIsExact(config(r.to), w.balances[r.to], r.outgoing);
      MoveRequestSums(w, e.i, Applied, a);
      StartSettlementSums(config, MoveRequest(w, e.i, Applied).(balances := w.balances[r.to := b]), r.to, amount, a);
    } else {
      MoveRequestSums(w, e.i, Lost, a);
    }
  }

  lemma RequestTaskKeepsBalanced(config: Config, w: World, e: Event, start: int, a: AccountId)
    requires WellFormed(w) && Balanced(w, start, a) && Enabled(w, e)
    requires e.ReplyFulfill? || e.ReplyReject? || e.RunReject?
    ensures Balanced(Next(config, w, e), start, a)
  {
    match e
    case ReplyFulfill(i) => MoveRequestSums(w, i, if w.requests[i].outgoing > 0 then FulfillDue else Done, a);
    case ReplyReject(i) => MoveRequestSums(w, i, RejectDue, a);
    case RunReject(i, stored) => MoveRequestSums(w, i, if stored then RolledBack else Lost, a);
  }

  lemma DelayedKeepsBalanced(config: Config, w: World, id: AccountId, start: int, a: AccountId)
    requires Balanced(w, start, a) && Enabled(w, Delayed(id))
    ensures Balanced(Next(config, w, Delayed(id)), start, a)
  {
    var (b, amount) := SettledLater(config(id), w.balances[id]);
    SettlementIsExact(config(id), w.balances[id], 0);
    StartSettlementSums(config, w.(balances := w.balances[id := b]), id, amount, a);
  }

  lemma ReceiveKeepsBalanced(config: Config, w: World, e: Event, start: int, a: AccountId)
    requires Balanced(w, start, a) && Enabled(w, e) && e.Receive?
    ensures Balanced(Next(config, w, e), start, a)
  {
    CreditIsExact(w.balances[e.id], e.amount);
    SumSnoc(w.credits, Credit(e.id, e.amount), PaidIn(a));
  }

  lemma SettlementKeepsBalanced(config: Config, w: World, e: Event, start: int, a: AccountId)
    requires Balanced(w, start, a) && Enabled(w, e) && (e.EngineReplies? || e.RunRefund?)
    ensures Balanced(Next(config, w, e), start, a)
  {
    match e
    case EngineReplies(j, accepted) => MoveSettlementSums(w, j, if accepted then Sent else RefundDue, a);
    case RunRefund(j, stored) => MoveSettlementSums(w, j, if stored then Refunded else RefundLost, a);
  }

  lemma NextKeepsBalanced(config: Config, w: World, e: Event, start: int, a: AccountId)
    requires WellFormed(w) && Balanced(w, start, a) && Enabled(w, e)
    ensures WellFormed(Next(config, w, e)) && Balanced(Next(config, w, e), start, a)
  {
    NextKeepsWellFormed(config, w, e);
    match e
    case Send(_, _, _, _) => SendKeepsBalanced(config, w, e, start, a);
    case RunFulfill(_, _) => FulfillKeepsBalanced(config, w, e, start, a);
    case ReplyFulfill(_) => RequestTaskKeepsBalanced(config, w, e, start, a);
    case ReplyReject(_) => RequestTaskKeepsBalanced(config, w, e, start, a);
    case RunReject(_, _) => RequestTaskKeepsBalanced(config, w, e, start, a);
    case Delayed(id) => DelayedKeepsBalanced(config, w, id, start, a);
    case Receive(_, _, _) => ReceiveKeepsBalanced(config, w, e, start, a);
    case ForgetKey(_) =>
    case _ => SettlementKeepsBalanced(config, w, e, start, a);
  }

  lemma NewBalanceKeepsWellFormed(w: World, id: AccountId, b: Balance)
    requires WellFormed(w) && id in w.balances && b.prepaid >= 0
    ensures WellFormed(w.(balances := w.balances[id := b])) && w.balances[id := b].Keys == w.balances.Keys
  {
  }

  lemma MoveRequestKeepsWellFormed(w: World, i: nat, phase: RequestPhase)
    requires WellFormed(w) && i < |w.requests|
    ensures WellFormed(MoveRequest(w, i, phase))
  {
  }

  lemma MoveSettlementKeepsWellFormed(w: World, j: nat, phase: SettlementPhase)
    requires WellFormed(w) && j < |w.settlements|
    ensures WellFormed(MoveSettlement(w, j, phase))
  {
  }

  lemma StartSettlementKeepsWellFormed(config: Config, w: World, id: AccountId, amount: nat)
    requires WellFormed(w) && id in w.balances
    ensures WellFormed(StartSettlement(config, w, id, amount))
  {
  }

  lemma SendKeepsWellFormed(config: Config, w: World, e: Event)
    requires WellFormed(w) && Enabled(w, e) && e.Send?
    ensures WellFormed(Next(config, w, e)) && Next(config, w, e).balances.Keys == w.balances.Keys
  {
    PrepareIsExact(config(e.from), w.balances[e.from], e.incoming);
  }

  lemma NextKeepsWellFormed(config: Config, w: World, e: Event)
    requires WellFormed(w) && Enabled(w, e)
    ensures WellFormed(Next(config, w, e)) && Next(config, w, e).balances.Keys == w.balances.Keys
  {
    match e
    case Send(_, _, _, _) => SendKeepsWellFormed(config, w, e);
    case ReplyFulfill(i) => MoveRequestKeepsWellFormed(w, i, if w.requests[i].outgoing > 0 then FulfillDue else Done);
    case ReplyReject(i) => MoveRequestKeepsWellFormed(w, i, RejectDue);
    case RunFulfill(i, stored) =>
      var r := w.requests[i];
      var (b, amount) := Fulfilled(config(r.to), w.balances[r.to], r.outgoing);
      MoveRequestKeepsWellFormed(w, i, if stored then Applied else Lost);
      if stored {
        NewBalanceKeepsWellFormed(MoveRequest(w, i, Applied), r.to, b);
        StartSettlementKeepsWellFormed(
          config, MoveRequest(w, i, Applied).(balances := w.balances[r.to := b]), r.to, amount);
      }
    case RunReject(i, stored) =>
      var r := w.requests[i];
      MoveRequestKeepsWellFormed(w, i, if stored then RolledBack else Lost);
      if stored {
        NewBalanceKeepsWellFormed(MoveRequest(w, i, RolledBack), r.from, Returned(w.balances[r.from], r.incoming));
      }
    case Delayed(id) =>
      var (b, amount) := SettledLater(config(id), w.balances[id]);
      NewBalanceKeepsWellFormed(w, id, b);
      StartSettlementKeepsWellFormed(config, w.(balances := w.balances[id := b]), id, amount);
    case EngineReplies(j, accepted) => MoveSettlementKeepsWellFormed(w, j, if accepted then Sent else RefundDue);
    case RunRefund(j, stored) =>
      var s := w.settlements[j];
      MoveSettlementKeepsWellFormed(w, j, if stored then Refunded else RefundLost);
      if stored {
        NewBalanceKeepsWellFormed(
          MoveSettlement(w, j, Refunded), s.account, Returned(w.balances[s.account], s.amount));
      }
    case Receive(id, amount, _) => NewBalanceKeepsWellFormed(w, id, Credited(w.balances[id], amount));
    case ForgetKey(_) =>
  }

  lemma {:induction false} RunKeepsBalanced(config: Config, w: World, es: seq<Event>, start: int, a: AccountId)
    requires WellFormed(w) && Balanced(w, start, a) && IsRun(config, w, es)
    ensures WellFormed(After(config, w, es)) && Balanced(After(config, w, es), start, a)
    decreases |es|
  {
    if es != [] {
      NextKeepsBalanced(config, w, es[0], start, a);
      RunKeepsBalanced(config, Next(config, w, es[0]), es[1..], start, a);
    }
  }

  // ---------------------------------------------------------------- conservation

  predicate Fresh(w: World) {
    && w.requests == [] && w.settlements == [] && w.credits == []
    && forall id :: id in w.balances ==> w.balances[id].prepaid >= 0
  }

  /** In every run, whatever tasks interleave and whichever store calls fail: the net balance is the
      starting one, less incoming amounts not rolled back, plus applied outgoing amounts, less
      settlements not refunded, plus settlements received. */
  lemma BalancesAreConserved(config: Config, w: World, es: seq<Event>, a: AccountId)
    requires Fresh(w) && a in w.balances && IsRun(config, w, es)
    ensures var w' := After(config, w, es);
            && a in w'.balances && w'.balances[a].prepaid >= 0
            && Net(w'.balances[a]) == Net(w.balances[a]) - Sum(w'.requests, Taken(a)) + Sum(w'.requests, Given(a))
                                      - Sum(w'.settlements, Outstanding(a)) - Sum(w'.settlements, Vanished(a))
                                      + Sum(w'.credits, PaidIn(a))
  {
    RunKeepsBalanced(config, w, es, Net(w.balances[a]), a);
  }

  predicate NothingDropped(w: World, a: AccountId) {
    forall j :: 0 <= j < |w.settlements| && w.settlements[j].account == a ==> w.settlements[j].phase != Dropped
  }

  lemma {:induction false} VanishedIsZero(ss: seq<Settlement>, a: AccountId)
    requires forall j :: 0 <= j < |ss| ==> ss[j].amount > 0
    ensures Sum(ss, Vanished(a)) >= 0
    ensures Sum(ss, Vanished(a)) == 0 <==> forall j :: 0 <= j < |ss| && ss[j].account == a ==> ss[j].phase != Dropped
  {
    if ss != [] {
      VanishedIsZero(ss[1..], a);
      assert forall j :: 1 <= j < |ss| ==> ss[j] == ss[1..][j - 1];
      assert forall j :: 0 <= j < |ss| - 1 ==> ss[1..][j] == ss[j + 1];
    }
  }

  /** An account's settlements are dropped only if it can settle and has no engine. */
  predicate DroppedForAReason(config: Config, w: World) {
    forall j :: 0 <= j < |w.settlements| ==>
      && CanSettle(config(w.settlements[j].account))
      && (w.settlements[j].phase == Dropped ==> !config(w.settlements[j].account).hasEngine)
  }

  lemma NextDropsForAReason(config: Config, w: World, e: Event)
    requires DroppedForAReason(config, w) && Enabled(w, e)
    ensures DroppedForAReason(config, Next(config, w, e))
  {
  }

  lemma {:induction false} RunDropsForAReason(config: Config, w: World, es: seq<Event>)
    requires DroppedForAReason(config, w) && IsRun(config, w, es)
    ensures DroppedForAReason(config, After(config, w, es))
    decreases |es|
  {
    if es != [] {
      NextDropsForAReason(config, w, es[0]);
      RunDropsForAReason(config, Next(config, w, es[0]), es[1..]);
    }
  }

  /** The documented law: what left by settlement was sent, is being sent, or waits to be refunded. */
  predicate Conserved(w: World, start: int, a: AccountId) {
    a in w.balances && Net(w.balances[a]) == start + Ledger(w, a)
  }

  /** After a run the documented law holds exactly if no settlement was dropped. */
  lemma ConservedUnlessDropped(config: Config, w: World, es: seq<Event>, a: AccountId)
    requires Fresh(w) && a in w.balances && IsRun(config, w, es)
    ensures Conserved(After(config, w, es), Net(w.balances[a]), a) <==> NothingDropped(After(config, w, es), a)
    ensures config(a).hasEngine || !CanSettle(config(a)) ==> NothingDropped(After(config, w, es), a)
  {
    RunKeepsBalanced(config, w, es, Net(w.balances[a]), a);
    VanishedIsZero(After(config, w, es).settlements, a);
    RunDropsForAReason(config, w, es);
  }

  /** What account `a` is short of its settlement threshold, at least 1. */
  function Shortfall(l: Settings, b: Balance): nat
    requires l.settleThreshold.Some?
  {
    var short := l.settleThreshold.value - b.balance;
    if short > 0 then short else 1
  }

  /** A payment of that amount from another account: its fulfill takes the balance to the threshold, and
      the settlement that is then due is dropped. */
  function DroppingRun(l: Settings, w: World, a: AccountId, payer: AccountId): seq<Event>
    requires a in w.balances && l.settleThreshold.Some?
  {
    var n := Shortfall(l, w.balances[a]);
    [Send(payer, a, n, n), ReplyFulfill(0), RunFulfill(0, true)]
  }

  /** The account may spend the amount without going below its minimum. */
  predicate CanPay(l: Settings, b: Balance, amount: nat) {
    l.minBalance.Some? ==> l.minBalance.value <= Net(b) - amount
  }

  lemma ThreeSteps(config: Config, w: World, es: seq<Event>)
    requires |es| == 3 && Enabled(w, es[0]) && Enabled(Next(config, w, es[0]), es[1])
    requires Enabled(Next(config, Next(config, w, es[0]), es[1]), es[2])
    ensures IsRun(config, w, es)
    ensures After(config, w, es) == Next(config, Next(config, Next(config, w, es[0]), es[1]), es[2])
  {
    var w1 := Next(config, w, es[0]);
    var w2 := Next(config, w1, es[1]);
    var es1 := es[1..];
    var es2 := es1[1..];
    assert es1[0] == es[1] && es2[0] == es[2] && es2[1..] == [];
    assert IsRun(config, w2, es2) && After(config, w2, es2) == Next(config, w2, es[2]);
    assert IsRun(config, w1, es1) && After(config, w1, es1) == After(config, w2, es2);
  }

  lemma PaymentIsForwarded(config: Config, w: World, payer: AccountId, a: AccountId, n: nat)
    requires Fresh(w) && a in w.balances && payer in w.balances && payer != a
    requires n > 0 && CanPay(config(payer), w.balances[payer], n)
    ensures var w1 := Next(config, w, Send(payer, a, n, n));
            && w1.requests == [Request(payer, a, n, n, Forwarded)] && w1.settlements == []
            && a in w1.balances && w1.balances[a] == w.balances[a]
  {
    PrepareIsExact(config(payer), w.balances[payer], n);
  }

  lemma DroppingRunDrops(config: Config, w: World, a: AccountId, payer: AccountId)
    requires Fresh(w) && a in w.balances && payer in w.balances && payer != a
    requires CanSettle(config(a)) && !config(a).hasEngine
    requires CanPay(config(payer), w.balances[payer], Shortfall(config(a), w.balances[a]))
    ensures IsRun(config, w, DroppingRun(config(a), w, a, payer))
    ensures !NothingDropped(After(config, w, DroppingRun(config(a), w, a, payer)), a)
  {
    var es := DroppingRun(config(a), w, a, payer);
    var w1 := Next(config, w, es[0]);
    PaymentIsForwarded(config, w, payer, a, es[0].incoming);
    var w2 := Next(config, w1, es[1]);
    assert w2.requests[0].phase == FulfillDue;
    var w3 := Next(config, w2, es[2]);
    assert |w3.settlements| == 1 && w3.settlements[0].phase == Dropped && w3.settlements[0].account == a;
    ThreeSteps(config, w, es);
  }

  /** So the law holds in every run exactly if the account has an engine or can never settle, as long
      as someone else can pay it what it takes to reach its threshold. */
  lemma LawHoldsIffEngineOrNoSettling(config: Config, w: World, a: AccountId, payer: AccountId)
    requires Fresh(w) && a in w.balances && payer in w.balances && payer != a
    requires CanSettle(config(a)) ==>
               CanPay(config(payer), w.balances[payer], Shortfall(config(a), w.balances[a]))
    ensures (forall es :: IsRun(config, w, es) ==> Conserved(After(config, w, es), Net(w.balances[a]), a)) <==>
            config(a).hasEngine || !CanSettle(config(a))
  {
    if config(a).hasEngine || !CanSettle(config(a)) {
      forall es | IsRun(config, w, es) ensures Conserved(After(config, w, es), Net(w.balances[a]), a) {
        ConservedUnlessDropped(config, w, es, a);
      }
    } else {
      var es := DroppingRun(config(a), w, a, payer);
      DroppingRunDrops(config, w, a, payer);
      ConservedUnlessDropped(config, w, es, a);
    }
  }

  // ---------------------------------------------------------------- the store and the service

  /** Account balances, changed in place. */
  class Store {
    const config: Config
    var balances: map<AccountId, Balance>

    constructor (config: Config, balances: map<AccountId, Balance>)
      ensures this.config == config && this.balances == balances
    {
      this.config, this.balances := config, balances;
    }

    method UpdateBalancesForPrepare(id: AccountId, amount: nat) returns (ok: bool)
      requires id in balances
      modifies this`balances
      ensures ok <==> Prepared(config(id), old(balances)[id], amount).Some?
      ensures balances ==
              if ok then old(balances)[id := Prepared(config(id), old(balances)[id], amount).value] else old(balances)
    {
      if amount == 0 {
        assert balances == balances[id := balances[id]];
        return true;
      }
      var Balance(balance, prepaid) := balances[id];
      var minBalance := config(id).minBalance;
      if minBalance.Some? && balance + prepaid - amount < minBalance.value {
        return false;
      }
      if prepaid >= amount {
        prepaid := prepaid - amount;
      } else if prepaid > 0 {
        var subFromBalance := amount - prepaid;
        prepaid := 0;
        balance := balance - subFromBalance;
      } else {
        balance := balance - amount;
      }
      balances := balances[id := Balance(balance, prepaid)];
      return true;
    }

    method UpdateBalancesForFulfill(id: AccountId, amount: nat) returns (net: int, settle: nat)
      requires id in balances
      modifies this`balances
      ensures var (b, due) := Fulfilled(config(id), old(balances)[id], amount);
              balances == old(balances)[id := b] && settle == due && net == Net(b)
    {
      var Balance(balance, prepaid) := balances[id];
      balance := balance + amount;
      settle := 0;
      var settings := config(id);
      if CanSettle(settings) && balance >= settings.settleThreshold.value {
        settle := balance - settings.settleTo.value;
        balance := settings.settleTo.value;
      }
      balances := balances[id := Balance(balance, prepaid)];
      net := balance + prepaid;
    }

    method UpdateBalancesForDelayedSettlement(id: AccountId) returns (net: int, settle: nat)
      requires id in balances
      modifies this`balances
      ensures var (b, due) := SettledLater(config(id), old(balances)[id]);
              balances == old(balances)[id := b] && settle == due && net == Net(b)
    {
      var Balance(balance, prepaid) := balances[id];
      settle := 0;
      var settings := config(id);
      if CanSettle(settings) && balance >= settings.settleTo.value {
        settle := balance - settings.settleTo.value;
        balance := settings.settleTo.value;
      }
      balances := balances[id := Balance(balance, prepaid)];
      net := balance + prepaid;
    }

    /** `update_balances_for_reject` and `refund_settlement` */
    method Return(id: AccountId, amount: nat)
      requires id in balances
      modifies this`balances
      ensures balances == old(balances)[id := Returned(old(balances)[id], amount)]
    {
      var Balance(balance, prepaid) := balances[id];
      balances := balances[id := Balance(balance + amount, prepaid)];
    }
  }

  /** What a fulfill task tells the delayed-settlement loop. */
  datatype TimeoutCommand = SetTimeout(id: AccountId) | ClearTimeout(id: AccountId)

  /** The service: the store beside the tasks and settlements it has in progress. */
  class Service {
    const store: Store
    var requests: seq<Request>
    var settlements: seq<Settlement>

    ghost function Snapshot(): World
      reads this, store
    {
      World(store.balances, requests, settlements, [], {})
    }

    constructor (store: Store)
      ensures this.store == store && Snapshot() == World(store.balances, [], [], [], {})
    {
      this.store, requests, settlements := store, [], [];
    }

    /** `send_request` up to forwarding: false means rejected for insufficient liquidity. */
    method SendRequest(from: AccountId, to: AccountId, incoming: nat, outgoing: nat) returns (forwarded: bool)
      requires Enabled(Snapshot(), Send(from, to, incoming, outgoing))
      modifies store`balances, this`requests
      ensures Snapshot() == Next(store.config, old(Snapshot()), Send(from, to, incoming, outgoing))
      ensures !forwarded <==> Prepared(store.config(from), old(store.balances)[from], incoming).None?
    {
      if incoming == 0 && outgoing == 0 {
        return true;
      }
      var ok := store.UpdateBalancesForPrepare(from, incoming);
      if !ok {
        return false;
      }
      requests := requests + [Request(from, to, incoming, outgoing, Forwarded)];
      return true;
    }

    /** The reply of the next service spawns the task that applies it. */
    method HandleReply(i: nat, fulfilled: bool)
      requires InPhase(Snapshot(), i, Forwarded)
      modifies this`requests
      ensures Snapshot() == Next(store.config, old(Snapshot()), if fulfilled then ReplyFulfill(i) else ReplyReject(i))
    {
      if !fulfilled {
        requests := requests[i := requests[i].(phase := RejectDue)];
      } else if requests[i].outgoing > 0 {
        requests := requests[i := requests[i].(phase := FulfillDue)];
      } else {
        requests := requests[i := requests[i].(phase := Done)];
      }
    }

    method Settle(id: AccountId, amount: nat)
      modifies this`settlements
      ensures Snapshot() == StartSettlement(store.config, old(Snapshot()), id, amount)
    {
      if amount > 0 {
        settlements := settlements + [Settlement(id, amount, if store.config(id).hasEngine then Sending else Dropped)];
      }
    }

    /** `settle_or_rollback_now`: with nothing to settle but something owed to the account, ask for a
        delayed settlement; before settling, call off the delayed one. A failed store call ends it. */
    method SettleOrRollbackNow(i: nat, stored: bool) returns (command: Option<TimeoutCommand>)
      requires Enabled(Snapshot(), RunFulfill(i, stored))
      modifies store`balances, this`requests, this`settlements
      ensures Snapshot() == Next(store.config, old(Snapshot()), RunFulfill(i, stored))
      ensures var to := old(requests)[i].to;
              var (b, due) := Fulfilled(store.config(to), old(store.balances)[to], old(requests)[i].outgoing);
              command == if !stored then None
                         else if due > 0 then Some(ClearTimeout(to))
                         else if Net(b) > 0 then Some(SetTimeout(to))
                         else None
    {
      if !stored {
        requests := requests[i := requests[i].(phase := Lost)];
        return None;
      }
      var to := requests[i].to;
      var net, amount := store.UpdateBalancesForFulfill(to, requests[i].outgoing);
      requests := requests[i := requests[i].(phase := Applied)];
      if amount == 0 {
        if net > 0 {
          return Some(SetTimeout(to));
        }
        return None;
      }
      Settle(to, amount);
      return Some(ClearTimeout(to));
    }

    method RollBack(i: nat, stored: bool)
      requires Enabled(Snapshot(), RunReject(i, stored))
      modifies store`balances, this`requests
      ensures Snapshot() == Next(store.config, old(Snapshot()), RunReject(i, stored))
    {
      if stored {
        store.Return(requests[i].from, requests[i].incoming);
        requests := requests[i := requests[i].(phase := RolledBack)];
      } else {
        requests := requests[i := requests[i].(phase := Lost)];
      }
    }

    /** The settlement started by an expired timeout; without the account or the store nothing happens. */
    method SettleDelayed(id: AccountId, loaded: bool)
      requires loaded ==> Enabled(Snapshot(), Delayed(id))
      modifies store`balances, this`settlements
      ensures Snapshot() == if loaded then Next(store.config, old(Snapshot()), Delayed(id)) else old(Snapshot())
    {
      if loaded {
        var _, amount := store.UpdateBalancesForDelayedSettlement(id);
        Settle(id, amount);
      }
    }

    /** The engine's answer: an accepted settlement is final, a failed one is to be refunded. */
    method HandleEngineReply(j: nat, accepted: bool)
      requires Settling(Snapshot(), j, Sending)
      modifies this`settlements
      ensures Snapshot() == Next(store.config, old(Snapshot()), EngineReplies(j, accepted))
    {
      settlements := settlements[j := settlements[j].(phase := if accepted then Sent else RefundDue)];
    }

    method Refund(j: nat, stored: bool)
      requires Enabled(Snapshot(), RunRefund(j, stored))
      modifies store`balances, this`settlements
      ensures Snapshot() == Next(store.config, old(Snapshot()), RunRefund(j, stored))
    {
      if stored {
        store.Return(settlements[j].account, settlements[j].amount);
      }
      settlements := settlements[j := settlements[j].(phase := if stored then Refunded else RefundLost)];
    }
  }
}
