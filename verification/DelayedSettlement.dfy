/** The delayed-settlement loop: a map from accounts to delay-queue keys beside the queue itself,
    driven by any interleaving of commands, expiries and timer failures. */
module DelayedSettlement {
  import opened Options
  import opened CcpTypes

  /** A delay-queue key. A new entry gets any key that no live entry has; keys may be reused. */
  type Key = nat

  datatype ExitReason = InputClosed | Shutdown | Capacity | Other

  datatype Loop = Loop(
    inQueue: map<AccountId, Key>, timeouts: map<Key, AccountId>, inputEnded: bool, exit: Option<ExitReason>)

  /** What the loop can be woken by. `Set` carries the key the queue would hand out; `Drained` is the
      queue answering that it holds nothing. */
  datatype Event =
    | Set(id: AccountId, key: Key)
    | Clear(id: AccountId)
    | InputEnds
    | Expire(key: Key)
    | TimerFails(reason: ExitReason)
    | Drained

  const START := Loop(map[], map[], false, None)

  /** The guard on polling the queue. */
  predicate PollsQueue(s: Loop) {
    s.timeouts != map[] || s.inputEnded
  }

  predicate Enabled(s: Loop, e: Event) {
    && s.exit.None?
    && match e
       case Set(id, key) => !s.inputEnded && key !in s.timeouts
       case Clear(_) => !s.inputEnded
       case InputEnds => !s.inputEnded
       case Expire(key) => key in s.timeouts
       case TimerFails(reason) => PollsQueue(s) && reason != InputClosed
       case Drained => PollsQueue(s) && s.timeouts == map[]
  }

  function Next(s: Loop, e: Event): Loop
    requires Enabled(s, e)
  {
    match e
    case Set(id, key) =>
      if id in s.inQueue then s
      else s.(inQueue := s.inQueue[id := key], timeouts := s.timeouts[key := id])
    case Clear(id) =>
      if id in s.inQueue then s.(inQueue := s.inQueue - {id}, timeouts := s.timeouts - {s.inQueue[id]})
      else s
    case InputEnds => s.(inputEnded := true)
    case Expire(key) => s.(inQueue := s.inQueue - {s.timeouts[key]}, timeouts := s.timeouts - {key})
    case TimerFails(reason) => s.(exit := Some(reason))
    case Drained => s.(exit := Some(InputClosed))
  }

  // ---------------------------------------------------------------- runs

  predicate IsRun(s: Loop, es: seq<Event>)
    decreases |es|
  {
    es == [] || (Enabled(s, es[0]) && IsRun(Next(s, es[0]), es[1..]))
  }

  function After(s: Loop, es: seq<Event>): Loop
    requires IsRun(s, es)
    decreases |es|
  {
    if es == [] then s else After(Next(s, es[0]), es[1..])
  }

  /** The map and the queue describe the same bijection. */
  predicate Bijection(s: Loop) {
    && (forall id :: id in s.inQueue ==> s.inQueue[id] in s.timeouts && s.timeouts[s.inQueue[id]] == id)
    && (forall key :: key in s.timeouts ==> s.timeouts[key] in s.inQueue && s.inQueue[s.timeouts[key]] == key)
  }

  predicate Inv(s: Loop) {
    Bijection(s) && (s.exit == Some(InputClosed) ==> s.inputEnded && s.timeouts == map[])
  }

  lemma NextKeepsInv(s: Loop, e: Event)
    requires Inv(s) && Enabled(s, e)
    ensures Inv(Next(s, e))
  {
  }

  lemma {:induction false} RunKeepsInv(s: Loop, es: seq<Event>)
    requires Inv(s) && IsRun(s, es)
    ensures Inv(After(s, es))
    decreases |es|
  {
    if es != [] {
      NextKeepsInv(s, es[0]);
      RunKeepsInv(Next(s, es[0]), es[1..]);
    }
  }

  /** In every reachable state `in_queue` is a bijection with the live queue entries. So a `Clear` never
      hands the queue a dead key, and an expiry always finds its account in the map under the key
      that expired. */
  lemma KeysAreAlwaysLive(es: seq<Event>)
    requires IsRun(START, es)
    ensures var s := After(START, es);
            && |s.inQueue| == |s.timeouts|
            && (forall id :: id in s.inQueue ==> s.inQueue[id] in s.timeouts)
            && (forall key :: key in s.timeouts ==> s.timeouts[key] in s.inQueue && s.inQueue[s.timeouts[key]] == key)
  {
    RunKeepsInv(START, es);
    SameSize(After(START, es));
  }

  lemma {:induction false} SameSize(s: Loop)
    requires Bijection(s)
    ensures |s.inQueue| == |s.timeouts|
    decreases |s.inQueue|
  {
    if s.inQueue == map[] {
      if key :| key in s.timeouts {
        assert s.timeouts[key] in s.inQueue;
      }
      assert s.timeouts == map[];
    } else {
      var id :| id in s.inQueue;
      var key := s.inQueue[id];
      var smaller := s.(inQueue := s.inQueue - {id}, timeouts := s.timeouts - {key});
      assert smaller.inQueue.Keys == s.inQueue.Keys - {id} && smaller.timeouts.Keys == s.timeouts.Keys - {key};
      SameSize(smaller);
    }
  }

  /** The loop reports a closed input only when the input has ended and nothing is left to settle. */
  lemma InputClosedMeansDrained(es: seq<Event>)
    requires IsRun(START, es) && After(START, es).exit == Some(InputClosed)
    ensures After(START, es).inputEnded && After(START, es).inQueue == map[] && After(START, es).timeouts == map[]
  {
    RunKeepsInv(START, es);
    SameSize(After(START, es));
  }

  // ---------------------------------------------------------------- every Set fires once

  function Queued(s: Loop, id: AccountId): nat {
    if id in s.inQueue then 1 else 0
  }

  /** Commands that schedule `id`: a `Set` while it is queued changes nothing. */
  function Scheduled(s: Loop, es: seq<Event>, id: AccountId): nat
    requires IsRun(s, es)
    decreases |es|
  {
    if es == [] then 0
    else (if es[0].Set? && es[0].id == id && id !in s.inQueue then 1 else 0) + Scheduled(Next(s, es[0]), es[1..], id)
  }

  function Cleared(s: Loop, es: seq<Event>, id: AccountId): nat
    requires IsRun(s, es)
    decreases |es|
  {
    if es == [] then 0
    else (if es[0] == Clear(id) && id in s.inQueue then 1 else 0) + Cleared(Next(s, es[0]), es[1..], id)
  }

  /** Expiries that start a settlement of `id`. */
  function Fired(s: Loop, es: seq<Event>, id: AccountId): nat
    requires IsRun(s, es)
    decreases |es|
  {
    if es == [] then 0
    else (if es[0].Expire? && s.timeouts[es[0].key] == id then 1 else 0) + Fired(Next(s, es[0]), es[1..], id)
  }

  /** Over any part of any run, what is scheduled is fired, cleared or still queued: nothing fires
      twice, nothing is lost. */
  lemma {:induction false} SchedulesAreConserved(s: Loop, es: seq<Event>, id: AccountId)
    requires Inv(s) && IsRun(s, es)
    ensures Queued(s, id) + Scheduled(s, es, id) == Fired(s, es, id) + Cleared(s, es, id) + Queued(After(s, es), id)
    decreases |es|
  {
    if es != [] {
      NextKeepsInv(s, es[0]);
      SchedulesAreConserved(Next(s, es[0]), es[1..], id);
    }
  }

  lemma {:induction false} NeverCleared(s: Loop, es: seq<Event>, id: AccountId)
    requires IsRun(s, es) && Clear(id) !in es
    ensures Cleared(s, es, id) == 0
    decreases |es|
  {
    if es != [] {
      NeverCleared(Next(s, es[0]), es[1..], id);
    }
  }

  /** A `Set` that is never cleared fires exactly once for each time it was scheduled, as long as the
      timer works: one of them can only be outstanding while the account is still queued. */
  lemma UnclearedSetFiresOnce(s: Loop, id: AccountId, key: Key, es: seq<Event>)
    requires Inv(s) && IsRun(s, [Set(id, key)] + es) && Clear(id) !in es
    ensures var s1 := Next(s, Set(id, key));
            && IsRun(s1, es)
            && Fired(s1, es, id) == 1 + Scheduled(s1, es, id) - Queued(After(s1, es), id)
            && (After(s1, es).exit == Some(InputClosed) ==> Fired(s1, es, id) == 1 + Scheduled(s1, es, id))
  {
    var run := [Set(id, key)] + es;
    assert run[0] == Set(id, key) && run[1..] == es;
    var s1 := Next(s, Set(id, key));
    NextKeepsInv(s, Set(id, key));
    SchedulesAreConserved(s1, es, id);
    NeverCleared(s1, es, id);
    RunKeepsInv(s1, es);
  }

  // ---------------------------------------------------------------- timers and the end of the loop

  /** A `Set` of an account that is not queued starts a timer under the key the queue hands out. */
  lemma SetStartsATimer(s: Loop, id: AccountId, key: Key)
    requires Inv(s) && Enabled(s, Set(id, key)) && id !in s.inQueue
    ensures var s' := Next(s, Set(id, key));
            && id in s'.inQueue && s'.inQueue[id] == key && key in s'.timeouts && s'.timeouts[key] == id
            && Enabled(s', Expire(key))
  {
  }

  lemma StepKeepsTimer(s: Loop, e: Event, id: AccountId)
    requires Inv(s) && Enabled(s, e) && id in s.inQueue && e != Clear(id) && e != Expire(s.inQueue[id])
    ensures id in Next(s, e).inQueue && Next(s, e).inQueue[id] == s.inQueue[id]
  {
  }

  /** A running timer is never restarted: until it expires or is cleared it keeps its key, whatever else
      is set, cleared or expires, and however often the account is set again. */
  lemma {:induction false} TimerIsNeverRestarted(s: Loop, es: seq<Event>, id: AccountId)
    requires Inv(s) && IsRun(s, es) && id in s.inQueue
    requires Clear(id) !in es && Expire(s.inQueue[id]) !in es
    ensures id in After(s, es).inQueue && After(s, es).inQueue[id] == s.inQueue[id]
    decreases |es|
  {
    if es != [] {
      assert es[0] in es;
      StepKeepsTimer(s, es[0], id);
      NextKeepsInv(s, es[0]);
      TimerIsNeverRestarted(Next(s, es[0]), es[1..], id);
    }
  }

  /** The loop ends for exactly two reasons, and says which: its timer failed, or the queue was found empty
      after the input had ended. */
  lemma {:induction false} LoopEndsForAReason(s: Loop, es: seq<Event>, reason: ExitReason)
    requires s.exit.None? && IsRun(s, es)
    ensures After(s, es).exit == Some(reason) <==>
            es != [] && (es[|es| - 1] == TimerFails(reason) || (es[|es| - 1] == Drained && reason == InputClosed))
    ensures After(s, es).inputEnded <==> s.inputEnded || InputEnds in es
    decreases |es|
  {
    if es != [] {
      var s' := Next(s, es[0]);
      if s'.exit.None? {
        LoopEndsForAReason(s', es[1..], reason);
      } else {
        assert es[1..] == [];
        assert es == [es[0]];
      }
      assert InputEnds in es <==> es[0] == InputEnds || InputEnds in es[1..];
    }
  }

  /** While it has not ended the loop can always go on: every queued account can expire; while the input
      is open it can be fed or ended, and after that, with nothing queued, the loop can end. */
  lemma LoopCanGoOn(s: Loop, id: AccountId)
    requires Inv(s) && s.exit.None?
    ensures id in s.inQueue ==> Enabled(s, Expire(s.inQueue[id])) && id !in Next(s, Expire(s.inQueue[id])).inQueue
    ensures !s.inputEnded ==> Enabled(s, Clear(id)) && id !in Next(s, Clear(id)).inQueue && Enabled(s, InputEnds)
    ensures s.inputEnded && s.inQueue == map[] ==>
              Enabled(s, Drained) && Next(s, Drained).exit == Some(InputClosed)
  {
    SameSize(s);
  }

  // ---------------------------------------------------------------- the loop

  /** The accounts whose settlement the loop starts, in order. */
  function Settlements(s: Loop, es: seq<Event>): seq<AccountId>
    requires IsRun(s, es)
    decreases |es|
  {
    if es == [] then []
    else (if es[0].Expire? then [s.timeouts[es[0].key]] else []) + Settlements(Next(s, es[0]), es[1..])
  }

  lemma {:induction false} FiredIsSettled(s: Loop, es: seq<Event>, id: AccountId)
    requires IsRun(s, es)
    ensures multiset(Settlements(s, es))[id] == Fired(s, es, id)
    decreases |es|
  {
    if es != [] {
      FiredIsSettled(Next(s, es[0]), es[1..], id);
    }
  }

  lemma {:induction false} RunSplits(s: Loop, es: seq<Event>, e: Event)
    requires IsRun(s, es + [e])
    ensures IsRun(s, es) && Enabled(After(s, es), e)
    ensures After(s, es + [e]) == Next(After(s, es), e)
    ensures Settlements(s, es + [e])
         == Settlements(s, es) + (if e.Expire? then [After(s, es).timeouts[e.key]] else [])
    decreases |es|
  {
    if es == [] {
      assert es + [e] == [e];
    } else {
      assert (es + [e])[0] == es[0] && (es + [e])[1..] == es[1..] + [e];
      RunSplits(Next(s, es[0]), es[1..], e);
    }
  }

  class SettlementLoop {
    var inQueue: map<AccountId, Key>
    var timeouts: map<Key, AccountId>
    var inputEnded: bool
    var exit: Option<ExitReason>

    function Snapshot(): Loop
      reads this
    {
      Loop(inQueue, timeouts, inputEnded, exit)
    }

    constructor ()
      ensures Snapshot() == START
    {
      inQueue, timeouts, inputEnded, exit := map[], map[], false, None;
    }

    /** `ManageTimeout::Clear`: the key given to the queue is live. */
    method HandleClear(id: AccountId)
      requires Bijection(Snapshot()) && Enabled(Snapshot(), Clear(id))
      modifies this`inQueue, this`timeouts
      ensures Snapshot() == Next(old(Snapshot()), Clear(id))
    {
      if id in inQueue {
        var key := inQueue[id];
        inQueue := inQueue - {id};
        assert key in timeouts;
        timeouts := timeouts - {key};
      }
    }

    /** `ManageTimeout::Set`: inserted only if the account has no entry. */
    method HandleSet(id: AccountId, key: Key)
      requires Enabled(Snapshot(), Set(id, key))
      modifies this`inQueue, this`timeouts
      ensures Snapshot() == Next(old(Snapshot()), Set(id, key))
    {
      if id !in inQueue {
        timeouts := timeouts[key := id];
        inQueue := inQueue[id := key];
      }
    }

    /** An expired entry: its account is in the map, under the key that expired. */
    method HandleExpired(key: Key) returns (id: AccountId)
      requires Bijection(Snapshot()) && Enabled(Snapshot(), Expire(key))
      modifies this`inQueue, this`timeouts
      ensures Snapshot() == Next(old(Snapshot()), Expire(key))
      ensures id == old(timeouts)[key] && id in old(inQueue) && old(inQueue)[id] == key
    {
      id := timeouts[key];
      timeouts := timeouts - {key};
      inQueue := inQueue - {id};
    }

    /** The loop, fed with what wakes it up. It starts one settlement per expiry. */
    method Run(es: seq<Event>) returns (settled: seq<AccountId>)
      requires Snapshot() == START && IsRun(START, es)
      modifies this
      ensures Snapshot() == After(START, es) && settled == Settlements(START, es)
    {
      settled := [];
      for i := 0 to |es|
        invariant IsRun(START, es[..i]) && Snapshot() == After(START, es[..i])
        invariant settled == Settlements(START, es[..i])
      {
        RunPrefix(START, es, i);
        RunKeepsInv(START, es[..i]);
        match es[i] {
          case Set(id, key) =>
            HandleSet(id, key);
          case Clear(id) =>
            HandleClear(id);
          case InputEnds =>
            inputEnded := true;
          case Expire(key) =>
            var id := HandleExpired(key);
            settled := settled + [id];
          case TimerFails(reason) =>
            exit := Some(reason);
          case Drained =>
            assert inputEnded;
            exit := Some(InputClosed);
        }
      }
      assert es[..|es|] == es;
    }
  }

  lemma RunPrefix(s: Loop, es: seq<Event>, i: nat)
    requires i < |es| && IsRun(s, es)
    ensures IsRun(s, es[..i]) && IsRun(s, es[..i + 1]) && Enabled(After(s, es[..i]), es[i])
    ensures After(s, es[..i + 1]) == Next(After(s, es[..i]), es[i])
    ensures Settlements(s, es[..i + 1])
         == Settlements(s, es[..i]) + (if es[i].Expire? then [After(s, es[..i]).timeouts[es[i].key]] else [])
  {
    AnyPrefix(s, es, i + 1);
    assert es[..i + 1] == es[..i] + [es[i]];
    RunSplits(s, es[..i], es[i]);
  }

  lemma {:induction false} AnyPrefix(s: Loop, es: seq<Event>, i: nat)
    requires i <= |es| && IsRun(s, es)
    ensures IsRun(s, es[..i])
    decreases |es|
  {
    if i > 0 {
      assert es[..i][0] == es[0] && es[..i][1..] == es[1..][..i - 1];
      AnyPrefix(Next(s, es[0]), es[1..], i - 1);
    }
  }
}
