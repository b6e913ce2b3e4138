/** That synchronisation gets somewhere: which routes an update makes a receiver learn, what an answer
    carries, that gaps are asked for, and that a receiver that hears every broadcast keeps up. */
module SyncProgress {
  import opened Options
  import opened Text
  import opened CcpTypes
  import opened RouteLog
  import opened RoutingTables
  import opened Sync

  // ---------------------------------------------------------------- what a merged range carries

  /** Some change adds the route, and no later one withdraws its prefix. */
  predicate StandsAdded(ops: seq<Op>, r: Route) {
    exists i :: 0 <= i < |ops| && ops[i] == Add(r) && forall j :: i < j < |ops| ==> ops[j] != Withdraw(r.prefix)
  }

  /** Some change withdraws the prefix, and no later one adds it. */
  predicate StandsWithdrawn(ops: seq<Op>, p: Text) {
    exists i :: 0 <= i < |ops| && ops[i] == Withdraw(p)
                && forall j :: i < j < |ops| && ops[j].Add? ==> ops[j].route.prefix != p
  }

  lemma AddedSnoc(ops: seq<Op>, op: Op, r: Route)
    ensures StandsAdded(ops + [op], r) <==> op == Add(r) || (op != Withdraw(r.prefix) && StandsAdded(ops, r))
  {
    var all, n := ops + [op], |ops|;
    if i :| 0 <= i < |all| && all[i] == Add(r) && forall j :: i < j < |all| ==> all[j] != Withdraw(r.prefix) {
      if i < n {
        assert ops[i] == Add(r) && all[n] == op && forall j :: i < j < n ==> ops[j] == all[j];
      }
    }
    if op == Add(r) {
      assert all[n] == Add(r);
    } else if op != Withdraw(r.prefix) && StandsAdded(ops, r) {
      var i :| 0 <= i < n && ops[i] == Add(r) && forall j :: i < j < n ==> ops[j] != Withdraw(r.prefix);
      assert all[i] == Add(r) && forall j :: i < j < n ==> all[j] == ops[j];
    }
  }

  lemma WithdrawnSnoc(ops: seq<Op>, op: Op, p: Text)
    ensures StandsWithdrawn(ops + [op], p) <==>
            op == Withdraw(p) || (!(op.Add? && op.route.prefix == p) && StandsWithdrawn(ops, p))
  {
    var all, n := ops + [op], |ops|;
    if i :| 0 <= i < |all| && all[i] == Withdraw(p)
            && forall j :: i < j < |all| && all[j].Add? ==> all[j].route.prefix != p {
      if i < n {
        assert ops[i] == Withdraw(p) && all[n] == op && forall j :: i < j < n ==> ops[j] == all[j];
      }
    }
    if op == Withdraw(p) {
      assert all[n] == Withdraw(p);
    } else if !(op.Add? && op.route.prefix == p) && StandsWithdrawn(ops, p) {
      var i :| 0 <= i < n && ops[i] == Withdraw(p)
               && forall j :: i < j < n && ops[j].Add? ==> ops[j].route.prefix != p;
      assert all[i] == Withdraw(p) && forall j :: i < j < n ==> all[j] == ops[j];
    }
  }

  /** A route is announced by a merged range exactly if some change adds it and no later one withdraws its
      prefix. */
  lemma {:induction false} MergeAnnounces(ops: seq<Op>, r: Route)
    ensures r in Merge(ops).newRoutes <==> StandsAdded(ops, r)
  {
    if ops != [] {
      var n := |ops| - 1;
      assert ops == ops[..n] + [ops[n]];
      MergeAnnounces(ops[..n], r);
      AddedSnoc(ops[..n], ops[n], r);
      if ops[n].Withdraw? {
        DropRoutesDrops(Merge(ops[..n]).newRoutes, ops[n].prefix, r);
      }
    }
  }

  /** A prefix is withdrawn exactly if some change withdraws it and no later one adds it. */
  lemma {:induction false} MergeWithdraws(ops: seq<Op>, p: Text)
    ensures p in Merge(ops).withdrawn <==> StandsWithdrawn(ops, p)
  {
    if ops != [] {
      var n := |ops| - 1;
      assert ops == ops[..n] + [ops[n]];
      MergeWithdraws(ops[..n], p);
      WithdrawnSnoc(ops[..n], ops[n], p);
    }
  }

  lemma {:induction false} DropRoutesDrops(routes: seq<Route>, p: Text, r: Route)
    ensures r in DropRoutes(routes, p) <==> r in routes && r.prefix != p
  {
    if routes != [] {
      DropRoutesDrops(routes[..|routes| - 1], p, r);
    }
  }

  /** The epochs of a range are those that exist from `from` on, before `to`. */
  lemma RangeIsSkipTake(log: seq<Delta>, from: nat, to: nat)
    ensures var range := Range(log, from, to);
            && (forall k :: 0 <= k < |range| ==> from + k < to && from + k < |log| && range[k] == log[from + k])
            && (from + |range| < |log| ==> from + |range| >= to)
  {
  }

  /** Within an epoch withdrawals come last. */
  lemma EpochWithdrawsLast(d: Delta, p: Text)
    ensures p in d.withdrawn ==> LastOp(EpochOps(d), p) == Some(Withdraw(p))
    ensures p !in d.withdrawn ==> LastOp(EpochOps(d), p) == LastOp(Adds(d.newRoutes), p)
  {
    LastOpConcat(Adds(d.newRoutes), Withdraws(d.withdrawn), p);
    LastWithdrawal(d.withdrawn, p);
  }

  lemma {:induction false} LastWithdrawal(prefixes: seq<Text>, p: Text)
    ensures LastOp(Withdraws(prefixes), p) == if p in prefixes then Some(Withdraw(p)) else None
  {
    if prefixes != [] {
      var n := |prefixes| - 1;
      assert Withdraws(prefixes)[..n] == Withdraws(prefixes[..n]);
      LastWithdrawal(prefixes[..n], p);
    }
  }

  // ---------------------------------------------------------------- answers

  /** The answer to a requester that knows our table at epoch k > 0 covers the epochs since then and
      names no prefix that did not change since; one that is up to date gets nothing. */
  lemma AnswerCarriesOnlyWhatIsNew(s: Sender, control: ControlRequest)
    requires control.lastKnownTableId == s.id && 0 < control.lastKnownEpoch <= |s.log|
    ensures var u := Reply(s, control);
            && u.tableId == s.id && u.speaker == s.address
            && u.fromEpoch == control.lastKnownEpoch && u.toEpoch == u.currentEpoch == |s.log|
            && (forall r :: r in u.newRoutes ==>
                  exists i :: control.lastKnownEpoch <= i < |s.log| && r in s.log[i].newRoutes)
            && (forall p :: p in u.withdrawn ==>
                  exists i :: control.lastKnownEpoch <= i < |s.log| && p in s.log[i].withdrawn)
            && (control.lastKnownEpoch == |s.log| ==> u.newRoutes == [] && u.withdrawn == [])
  {
    var u, k := Reply(s, control), control.lastKnownEpoch;
    forall r | r in u.newRoutes ensures exists i :: k <= i < |s.log| && r in s.log[i].newRoutes {
      var i := RouteIsNew(s, k, r);
    }
    forall p | p in u.withdrawn ensures exists i :: k <= i < |s.log| && p in s.log[i].withdrawn {
      var i := WithdrawalIsNew(s, k, p);
    }
  }

  lemma RouteIsNew(s: Sender, k: nat, r: Route) returns (i: nat)
    requires 0 < k <= |s.log| && r in Merge(RangeOps(s.address, s.log, k, |s.log|)).newRoutes
    ensures k <= i < |s.log| && r in s.log[i].newRoutes
  {
    MergeAnnounces(RangeOps(s.address, s.log, k, |s.log|), r);
    var j := LogOpFrom(Range(s.log, k, |s.log|), Add(r));
    i := k + j;
  }

  lemma WithdrawalIsNew(s: Sender, k: nat, p: Text) returns (i: nat)
    requires 0 < k <= |s.log| && p in Merge(RangeOps(s.address, s.log, k, |s.log|)).withdrawn
    ensures k <= i < |s.log| && p in s.log[i].withdrawn
  {
    MergeWithdraws(RangeOps(s.address, s.log, k, |s.log|), p);
    var j := LogOpFrom(Range(s.log, k, |s.log|), Withdraw(p));
    i := k + j;
  }

  lemma {:induction false} LogOpFrom(log: seq<Delta>, op: Op) returns (i: nat)
    requires op in LogOps(log)
    ensures i < |log|
    ensures op.Add? ==> op.route in log[i].newRoutes
    ensures op.Withdraw? ==> op.prefix in log[i].withdrawn
  {
    var n := |log| - 1;
    if op in LogOps(log[..n]) {
      i := LogOpFrom(log[..n], op);
    } else {
      i := n;
    }
  }

  /** Announced in epoch `i` and not withdrawn in that epoch or a later one. */
  predicate StillAnnounced(log: seq<Delta>, i: nat, r: Route) {
    i < |log| && r in log[i].newRoutes && forall j :: i <= j < |log| ==> r.prefix !in log[j].withdrawn
  }

  /** Any other requester is told everything from the start: our own prefix, unless the log withdraws it,
      and every route that is still announced. */
  lemma StrangerIsToldEverything(s: Sender, control: ControlRequest)
    requires control.lastKnownTableId != s.id || control.lastKnownEpoch == 0
    ensures var u := Reply(s, control);
            && u.tableId == s.id && u.speaker == s.address
            && u.fromEpoch == 0 && u.toEpoch == u.currentEpoch == |s.log|
            && (Withdraw(s.address) !in LogOps(s.log) ==> Route(s.address, [], seq(32, _ => 0), []) in u.newRoutes)
            && (forall i: nat, r :: StillAnnounced(s.log, i, r) ==> r in u.newRoutes)
  {
    OwnRouteIsTold(s);
    forall i: nat, r | StillAnnounced(s.log, i, r) ensures r in Reply(s, control).newRoutes {
      RouteIsTold(s, i, r);
    }
  }

  lemma WholeLogOps(s: Sender)
    ensures RangeOps(s.address, s.log, 0, |s.log|) == [Add(OwnRoute(s.address))] + LogOps(s.log)
  {
    assert Range(s.log, 0, |s.log|) == s.log;
  }

  /** An added route stands as long as its prefix is not withdrawn any more. */
  lemma {:induction false} AddedStays(ops: seq<Op>, more: seq<Op>, r: Route)
    requires StandsAdded(ops, r) && Withdraw(r.prefix) !in more
    ensures StandsAdded(ops + more, r)
  {
    if more == [] {
      assert ops + more == ops;
    } else {
      var n := |more| - 1;
      AddedStays(ops, more[..n], r);
      AddedSnoc(ops + more[..n], more[n], r);
      assert ops + more == (ops + more[..n]) + [more[n]];
    }
  }

  lemma {:induction false} AddedLater(ops: seq<Op>, more: seq<Op>, r: Route)
    requires StandsAdded(more, r)
    ensures StandsAdded(ops + more, r)
  {
    var n := |more| - 1;
    assert more == more[..n] + [more[n]] && ops + more == (ops + more[..n]) + [more[n]];
    AddedSnoc(more[..n], more[n], r);
    AddedSnoc(ops + more[..n], more[n], r);
    if more[n] != Add(r) {
      AddedLater(ops, more[..n], r);
    }
  }

  lemma OwnRouteIsTold(s: Sender)
    ensures Withdraw(s.address) !in LogOps(s.log) ==>
              Route(s.address, [], seq(32, _ => 0), []) in Merge(RangeOps(s.address, s.log, 0, |s.log|)).newRoutes
  {
    var own := OwnRoute(s.address);
    WholeLogOps(s);
    assert own == Route(s.address, [], seq(32, _ => 0), []);
    MergeAnnounces(RangeOps(s.address, s.log, 0, |s.log|), own);
    AddedSnoc([], Add(own), own);
    assert [] + [Add(own)] == [Add(own)];
    if Withdraw(s.address) !in LogOps(s.log) {
      AddedStays([Add(own)], LogOps(s.log), own);
    }
  }

  lemma RouteIsTold(s: Sender, i: nat, r: Route)
    requires StillAnnounced(s.log, i, r)
    ensures r in Merge(RangeOps(s.address, s.log, 0, |s.log|)).newRoutes
  {
    WholeLogOps(s);
    MergeAnnounces(RangeOps(s.address, s.log, 0, |s.log|), r);
    StillAnnouncedStands(s.log, i, r);
    AddedLater([Add(OwnRoute(s.address))], LogOps(s.log), r);
  }

  lemma {:induction false} StillAnnouncedStands(log: seq<Delta>, i: nat, r: Route)
    requires StillAnnounced(log, i, r)
    ensures StandsAdded(LogOps(log), r)
  {
    var n := |log| - 1;
    var start, last := LogOps(log[..n]), EpochOps(log[n]);
    assert Withdraw(r.prefix) !in last;
    if i == n {
      EpochAnnounces(log[n], r);
      AddedLater(start, last, r);
    } else {
      StillAnnouncedStands(log[..n], i, r);
      AddedStays(start, last, r);
    }
  }

  lemma EpochAnnounces(d: Delta, r: Route)
    requires r in d.newRoutes && r.prefix !in d.withdrawn
    ensures StandsAdded(EpochOps(d), r)
  {
    var m :| 0 <= m < |d.newRoutes| && d.newRoutes[m] == r;
    assert EpochOps(d)[m] == Add(r);
    assert Withdraw(r.prefix) !in EpochOps(d);
  }

  // ---------------------------------------------------------------- what a receiver learns

  /** The four reasons not to learn a route. */
  predicate Refused(me: Text, r: Route) {
    || !(Scheme(me) <= r.prefix)               // another address scheme
    || |r.prefix| <= |Scheme(me)| + 1          // the scheme itself
    || me <= r.prefix                          // our own address or something below it
    || exists i :: 0 <= i < |r.path| && r.path[i] == me  // it was here before
  }

  lemma KeptUnlessRefused(me: Text, r: Route)
    ensures Keeps(me, r) <==> !Refused(me, r)
  {
    assert me in r.path <==> exists i :: 0 <= i < |r.path| && r.path[i] == me;
  }

  lemma {:induction false} KeptRoutes(routes: seq<Route>, keep: Route -> bool)
    ensures forall r :: r in KeepRoutes(routes, keep) <==> r in routes && keep(r)
  {
    if routes != [] {
      KeptRoutes(routes[..|routes| - 1], keep);
    }
  }

  /** No later route of the list has the prefix of route `i`. */
  predicate LastOfItsPrefix(routes: seq<Route>, i: nat) {
    i < |routes| && forall j :: i < j < |routes| ==> routes[j].prefix != routes[i].prefix
  }

  lemma {:induction false} LastAddOf(routes: seq<Route>, i: nat)
    requires LastOfItsPrefix(routes, i)
    ensures LastOp(Adds(routes), routes[i].prefix) == Some(Add(routes[i]))
  {
    var n := |routes| - 1;
    LastOfAdds(routes, routes[i].prefix);
    if i < n {
      LastAddOf(routes[..n], i);
    }
  }

  predicate InTime(table: Option<Table>, u: UpdateRequest) {
    var epoch := if table.Some? && table.value.id == u.tableId then table.value.epoch else 0;
    u.fromEpoch <= epoch <= u.toEpoch
  }

  function Held(table: Option<Table>): Routes {
    if table.Some? then table.value.routes else map[]
  }

  /** An update in time moves the table to its last epoch, and the last route it announces for a prefix
      is learned from the peer unless there is a reason to refuse it. */
  lemma AnnouncedRouteIsLearned(me: Text, table: Option<Table>, peer: Account, u: UpdateRequest, i: nat)
    requires InTime(table, u) && LastOfItsPrefix(u.newRoutes, i)
    ensures var (t, outcome) := Deliver(me, table, peer, u);
            && outcome.Changed? && t.id == u.tableId && t.epoch == u.toEpoch
            && (!Refused(me, u.newRoutes[i]) ==>
                  u.newRoutes[i].prefix in t.routes && t.routes[u.newRoutes[i].prefix] == Entry(peer, u.newRoutes[i]))
  {
    var keep := (r: Route) => Keeps(me, r);
    KeptUnlessRefused(me, u.newRoutes[i]);
    LastAddOf(u.newRoutes, i);
    LastKept(u.newRoutes, keep, u.newRoutes[i].prefix);
    AddEntriesAt(Held(table) - ToSet(u.withdrawn), peer, KeepRoutes(u.newRoutes, keep), u.newRoutes[i].prefix);
  }

  /** And nothing else changes: a prefix of which every announcement is refused, or that is not announced
      at all, stays as it was, or is gone if it is withdrawn. */
  lemma RefusedRouteIsNotLearned(me: Text, table: Option<Table>, peer: Account, u: UpdateRequest, p: Text)
    requires InTime(table, u)
    requires forall r :: r in u.newRoutes && r.prefix == p ==> Refused(me, r)
    ensures var routes := Deliver(me, table, peer, u).0.routes;
            && (p in routes <==> p in Held(table) && p !in u.withdrawn)
            && (p in routes ==> routes[p] == Held(table)[p])
  {
    var keep := (r: Route) => Keeps(me, r);
    var kept := KeepRoutes(u.newRoutes, keep);
    KeptRoutes(u.newRoutes, keep);
    AddEntriesAt(Held(table) - ToSet(u.withdrawn), peer, kept, p);
    var last := LastOp(Adds(kept), p);
    if last.Some? {
      KeptUnlessRefused(me, last.value.route);
    }
  }

  // ---------------------------------------------------------------- gaps and broadcasts

  /** In every run: a receiver that notices a gap asks for exactly what it is missing, and the answer
      brings it to the sender's epoch. */
  lemma GapIsAskedFor(worlds: seq<World>, steps: seq<Step>, u: UpdateRequest, w': World)
    requires Run(worlds, steps) && Next(worlds[|steps|], Arrive(u), w')
    requires u.fromEpoch > ReceiverEpoch(worlds[|steps|])
    ensures exists control :: control in w'.controls && control.mode == Mode.Sync
              && control.lastKnownTableId == w'.sender.id && control.lastKnownEpoch == ReceiverEpoch(w')
              && Reply(w'.sender, control).fromEpoch == ReceiverEpoch(w')
              && Deliver(w'.me, w'.table, w'.peer, Reply(w'.sender, control)).0.epoch == Epoch(w'.sender)
  {
    var w := worlds[|steps|];
    RunKeepsInv(worlds, steps);
    NextKeepsInv(w, Arrive(u), w');
    AcceptedUpdateCatchesUp(w, u);
    var control := Resync(w'.table.value);
    var reply := Reply(w'.sender, control);
    var w'' := w'.(updates := w'.updates + {reply}, replies := w'.replies + {reply});
    NextKeepsInv(w', Answer(control), w'');
    AcceptedUpdateCatchesUp(w'', reply);
    assert control in w'.controls;
  }

  /** A node that starts asks for everything, whatever table the other side has. */
  lemma StartAsksForEverything(w: World, w': World)
    requires Next(w, Start, w')
    ensures exists control :: control in w'.controls && control.mode == Mode.Sync && control.lastKnownEpoch == 0
              && Reply(w'.sender, control).fromEpoch == 0
  {
    var control := ControlRequest(Mode.Sync, DUMMY_TABLE_ID, 0, []);
    assert control in w'.controls;
  }

  /** The receiver has heard everything that was broadcast. */
  predicate KeepsUp(w: World) {
    ReceiverEpoch(w) == w.sender.lastSent
  }

  /** A receiver that has heard everything so far and hears the next broadcast has heard everything: the
      broadcast covers exactly the epochs since the last one, is no gap, and nothing is asked for. */
  lemma BroadcastIsHeard(w: World, w1: World)
    requires Inv(w) && KeepsUp(w) && Next(w, Broadcast, w1)
    ensures exists u, w2 :: u in w1.updates && u.fromEpoch == w.sender.lastSent && u.toEpoch == Epoch(w.sender)
              && Next(w1, Arrive(u), w2) && KeepsUp(w2) && ReceiverEpoch(w2) == Epoch(w.sender)
              && w2.controls == w.controls
  {
    var u := CreateUpdate(w.sender, w.sender.lastSent, Epoch(w.sender));
    NextKeepsInv(w, Broadcast, w1);
    AcceptedUpdateCatchesUp(w1, u);
    var w2 := w1.(table := Some(Deliver(w1.me, w1.table, w1.peer, u).0));
    assert Next(w1, Arrive(u), w2);
  }
}
