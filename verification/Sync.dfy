/** Route synchronisation between one sender and one receiver.
    The sender logs its changes and sends merged deltas; the network may lose, duplicate and reorder
    anything; the receiver filters and applies what arrives and asks for a resync on a gap. */
module Sync {
  import opened Options
  import opened Text
  import opened CcpTypes
  import opened RouteLog
  import opened RoutingTables

  // ---------------------------------------------------------------- sending

  datatype Sender = Sender(id: TableId, address: Text, log: seq<Delta>, lastSent: nat)

  /** The forwarding epoch is the length of the log. */
  function Epoch(s: Sender): nat {
    |s.log|
  }

  /** An update for the given range of epochs: the merged delta of the range. */
  function CreateUpdate(s: Sender, from: nat, to: nat): UpdateRequest {
    var d := Merge(RangeOps(s.address, s.log, from, to));
    UpdateRequest(s.id, Epoch(s), from, to, DEFAULT_HOLD_DOWN_TIME, s.address, d.newRoutes, d.withdrawn)
  }

  /** The update sent in answer to a Route Control request in Sync mode. */
  function Reply(s: Sender, control: ControlRequest): UpdateRequest {
    var from := if control.lastKnownTableId != s.id then 0 else Min(control.lastKnownEpoch, Epoch(s));
    CreateUpdate(s, from, Epoch(s))
  }

  // ---------------------------------------------------------------- receiving

  /** A prefix `me` may learn: inside its scheme, not the scheme itself, and not its own address or
      anything below it. */
  predicate Learnable(me: Text, prefix: Text) {
    Scheme(me) <= prefix && |prefix| > |Scheme(me)| + 1 && !(me <= prefix)
  }

  /** Why a route is kept by `filter_routes`: its prefix may be learned and it did not already pass
      through us. */
  predicate Keeps(me: Text, route: Route) {
    Learnable(me, route.prefix) && me !in route.path
  }

  function Filter(me: Text, update: UpdateRequest): UpdateRequest {
    update.(newRoutes := KeepRoutes(update.newRoutes, (r: Route) => Keeps(me, r)))
  }

  /** Handling an update: create the peer's table on first contact, filter, apply. */
  function Deliver(me: Text, table: Option<Table>, peer: Account, update: UpdateRequest): (Table, Outcome) {
    var t := if table.Some? then table.value else Table(update.tableId, 0, map[]);
    Accept(t, peer, Filter(me, update))
  }

  // ---------------------------------------------------------------- the world and its steps

  /** `updates` and `controls` hold every message ever sent: a message may be delivered never, once
      or many times, in any order. `replies` are the updates that answered a control request. */
  datatype World = World(
    sender: Sender, me: Text, peer: Account, table: Option<Table>,
    updates: set<UpdateRequest>, replies: set<UpdateRequest>, controls: set<ControlRequest>)

  ghost predicate Init(w: World) {
    && w.sender.log == [] && w.sender.lastSent == 0 && w.table == None
    && w.updates == {} && w.replies == {} && w.controls == {}
  }

  datatype Step =
    | Change(delta: Delta)             // the sender's routes change
    | Broadcast                        // the sender's periodic update
    | Start                            // the receiver asks for all routes
    | Answer(control: ControlRequest)  // the sender handles a control request
    | Arrive(update: UpdateRequest)    // the receiver handles an update

  function Resync(t: Table): ControlRequest {
    ControlRequest(Mode.Sync, t.id, t.epoch, [])
  }

  ghost predicate Next(w: World, step: Step, w': World) {
    match step
    case Change(delta) =>
      w' == w.(sender := w.sender.(log := w.sender.log + [delta]))
    case Broadcast =>
      var u := CreateUpdate(w.sender, w.sender.lastSent, Epoch(w.sender));
      w' == w.(sender := w.sender.(lastSent := Epoch(w.sender)), updates := w.updates + {u})
    case Start =>
      w' == w.(controls := w.controls + {ControlRequest(Mode.Sync, DUMMY_TABLE_ID, 0, [])})
    case Answer(control) =>
      && control in w.controls
      && var u := Reply(w.sender, control);
         w' == w.(updates := w.updates + {u}, replies := w.replies + {u})
    case Arrive(update) =>
      && update in w.updates
      && var (t, outcome) := Deliver(w.me, w.table, w.peer, update);
         w' == w.(table := Some(t), controls := if outcome.Gap? then w.controls + {Resync(t)} else w.controls)
  }

  ghost predicate Run(worlds: seq<World>, steps: seq<Step>) {
    && |worlds| == |steps| + 1
    && Init(worlds[0])
    && forall i :: 0 <= i < |steps| ==> Next(worlds[i], steps[i], worlds[i + 1])
  }

  // ---------------------------------------------------------------- what holds in every run

  /** The sender's view at epoch `k`: its own prefix, then the log entries before `k`. */
  function ViewAt(s: Sender, k: nat): View {
    Replay(map[], RangeOps(s.address, s.log, 0, k))
  }

  function ReceiverEpoch(w: World): nat {
    if w.table.Some? then w.table.value.epoch else 0
  }

  ghost predicate Authentic(s: Sender, u: UpdateRequest) {
    && u.tableId == s.id
    && u.fromEpoch <= u.toEpoch <= Epoch(s)
    && Delta(u.newRoutes, u.withdrawn) == Merge(RangeOps(s.address, s.log, u.fromEpoch, u.toEpoch))
  }

  /** The epochs fit together: messages are cut from the log, and whatever answers the receiver, or
      will answer it, starts at or below the receiver's epoch. Filtering plays no part in this. */
  ghost predicate EpochInv(w: World) {
    && w.sender.lastSent <= Epoch(w.sender)
    && (forall u :: u in w.updates ==> Authentic(w.sender, u))
    && (w.table.Some? ==> w.table.value.id == w.sender.id && w.table.value.epoch <= Epoch(w.sender))
    && w.replies <= w.updates
    && (forall u :: u in w.replies ==> u.fromEpoch <= ReceiverEpoch(w))
    && (forall c :: c in w.controls && c.lastKnownTableId == w.sender.id ==> c.lastKnownEpoch <= ReceiverEpoch(w))
  }

  /** A table that holds nothing yet because only gaps were seen. */
  predicate Untouched(t: Table) {
    t.epoch == 0 && t.routes == map[]
  }

  /** What the receiver holds for `p` at epoch `k`: the sender's current route, or the lack of one, if
      the receiver's filter lets it pass; and nothing that was not announced and kept. */
  ghost predicate Shows(s: Sender, me: Text, peer: Account, k: nat, routes: Routes, p: Text) {
    var current := Lookup(ViewAt(s, k), p);
    && (current.None? || Keeps(me, current.value) ==> Lookup(RoutesOf(routes), p) == current)
    && (p in routes ==>
          && routes[p].account == peer && routes[p].route.prefix == p && Keeps(me, routes[p].route)
          && Add(routes[p].route) in RangeOps(s.address, s.log, 0, k))
  }

  ghost predicate ShowsAll(s: Sender, me: Text, peer: Account, k: nat, routes: Routes) {
    forall p :: Shows(s, me, peer, k, routes, p)
  }

  ghost predicate TableInv(w: World) {
    w.table.Some? && !Untouched(w.table.value) ==>
      ShowsAll(w.sender, w.me, w.peer, w.table.value.epoch, w.table.value.routes)
  }

  ghost predicate Inv(w: World) {
    EpochInv(w) && TableInv(w)
  }

  // ---------------------------------------------------------------- the epoch half

  /** Every step keeps the epochs in order and never lowers the receiver's. */
  lemma EpochNext(w: World, step: Step, w': World)
    requires EpochInv(w) && Next(w, step, w')
    ensures EpochInv(w')
    ensures ReceiverEpoch(w) <= ReceiverEpoch(w')
  {
    match step
    case Change(delta) => ChangeKeepsEpochs(w, delta, w');
    case Broadcast =>
    case Start =>
    case Answer(control) => AnswerKeepsEpochs(w, control, w');
    case Arrive(update) => ArriveKeepsEpochs(w, update, w');
  }

  lemma ChangeKeepsEpochs(w: World, delta: Delta, w': World)
    requires EpochInv(w) && Next(w, Change(delta), w')
    ensures EpochInv(w')
  {
    forall u | u in w'.updates ensures Authentic(w'.sender, u) {
      LongerLogSameRange(w.sender, delta, u.fromEpoch, u.toEpoch);
    }
  }

  lemma AnswerKeepsEpochs(w: World, control: ControlRequest, w': World)
    requires EpochInv(w) && Next(w, Answer(control), w')
    ensures EpochInv(w')
  {
    assert Authentic(w.sender, Reply(w.sender, control));
  }

  lemma ArriveKeepsEpochs(w: World, update: UpdateRequest, w': World)
    requires EpochInv(w) && Next(w, Arrive(update), w')
    ensures EpochInv(w') && ReceiverEpoch(w) <= ReceiverEpoch(w')
  {
    ArrivalKeepsEpochs(w, update);
  }

  lemma ArrivalKeepsEpochs(w: World, u: UpdateRequest)
    requires EpochInv(w) && u in w.updates
    ensures var (t, outcome) := Deliver(w.me, w.table, w.peer, u);
            && t.id == w.sender.id && ReceiverEpoch(w) <= t.epoch <= Epoch(w.sender)
            && (outcome.Gap? <==> u.fromEpoch > ReceiverEpoch(w))
            && (outcome.Changed? ==> u.toEpoch <= t.epoch)
  {
    assert Authentic(w.sender, u);
  }

  /** A longer log does not change what the old ranges stand for. */
  lemma LongerLogSameRange(s: Sender, delta: Delta, from: nat, to: nat)
    requires to <= Epoch(s)
    ensures RangeOps(s.address, s.log + [delta], from, to) == RangeOps(s.address, s.log, from, to)
  {
    assert Range(s.log + [delta], from, to) == Range(s.log, from, to);
  }

  lemma {:induction false} RunKeepsEpochInv(worlds: seq<World>, steps: seq<Step>)
    requires Run(worlds, steps)
    ensures EpochInv(worlds[|steps|])
  {
    if steps != [] {
      var n := |steps| - 1;
      RunKeepsEpochInv(worlds[..n + 1], steps[..n]);
      EpochNext(worlds[n], steps[n], worlds[n + 1]);
    }
  }

  // ---------------------------------------------------------------- one prefix of one update

  lemma LastOfAdds(routes: seq<Route>, p: Text)
    requires routes != []
    ensures var n := |routes| - 1;
            LastOp(Adds(routes), p) ==
            if routes[n].prefix == p then Some(Add(routes[n])) else LastOp(Adds(routes[..n]), p)
  {
    assert Adds(routes)[..|routes| - 1] == Adds(routes[..|routes| - 1]);
  }

  lemma {:induction false} AddEntriesAt(m: Routes, account: Account, routes: seq<Route>, p: Text)
    ensures var m' := AddEntries(m, account, routes);
            var last := LastOp(Adds(routes), p);
            && (last.None? ==> (p in m' <==> p in m) && (p in m ==> m'[p] == m[p]))
            && (last.Some? ==> last.value.Add? && last.value.route in routes
                               && p in m' && m'[p] == Entry(account, last.value.route))
  {
    if routes != [] {
      var n := |routes| - 1;
      LastOfAdds(routes, p);
      AddEntriesAt(m, account, routes[..n], p);
    }
  }

  /** Filtering keeps the last announcement of a prefix if it passes, and adds none. */
  lemma {:induction false} LastKept(routes: seq<Route>, keep: Route -> bool, p: Text)
    ensures var last := LastOp(Adds(routes), p);
            var kept := LastOp(Adds(KeepRoutes(routes, keep)), p);
            && (last.None? ==> kept.None?)
            && (last.Some? && last.value.Add? && keep(last.value.route) ==> kept == last)
            && (kept.Some? ==> kept.value.Add? && kept.value.route in routes && keep(kept.value.route))
  {
    if routes != [] {
      var n := |routes| - 1;
      LastOfAdds(routes, p);
      LastKept(routes[..n], keep, p);
      if keep(routes[n]) {
        var kept := KeepRoutes(routes[..n], keep);
        LastOfAdds(kept + [routes[n]], p);
        assert (kept + [routes[n]])[..|kept|] == kept;
      }
    }
  }

  lemma RangeIsPartOfWhole(address: Text, log: seq<Delta>, from: nat, to: nat, op: Op)
    requires from <= to <= |log| && op in RangeOps(address, log, from, to)
    ensures op in RangeOps(address, log, 0, to)
  {
    if from > 0 {
      RangeOpsSplit(address, log, 0, from, to);
    }
  }

  lemma StartIsPartOfWhole(address: Text, log: seq<Delta>, k: nat, to: nat, op: Op)
    requires k <= to <= |log| && op in RangeOps(address, log, 0, k)
    ensures op in RangeOps(address, log, 0, to)
  {
    if k > 0 {
      RangeOpsSplit(address, log, 0, k, to);
    }
  }

  lemma LastOfOverlap(a: seq<Op>, b: seq<Op>, c: seq<Op>, p: Text)
    ensures LastOp(a + (b + c), p) == if LastOp(b + c, p).Some? then LastOp(b + c, p) else LastOp(a + b, p)
  {
    LastOpConcat(a, b + c, p);
    LastOpConcat(a, b, p);
    LastOpConcat(b, c, p);
  }

  /** The last change up to `to` is the last one of the range, or else the last one up to any epoch
      `k` inside the range. */
  lemma LastInRange(address: Text, log: seq<Delta>, from: nat, k: nat, to: nat, p: Text)
    requires from <= k <= to <= |log|
    ensures LastOp(RangeOps(address, log, 0, to), p) ==
            if LastOp(RangeOps(address, log, from, to), p).Some? then LastOp(RangeOps(address, log, from, to), p)
            else LastOp(RangeOps(address, log, 0, k), p)
  {
    if from == 0 {
      var early := LastOp(RangeOps(address, log, 0, k), p);
      if early.Some? {
        StartIsPartOfWhole(address, log, k, to, early.value);
      }
    } else {
      RangeOpsSplit(address, log, 0, from, to);
      RangeOpsSplit(address, log, 0, from, k);
      RangeOpsSplit(address, log, from, k, to);
      LastOfOverlap(RangeOps(address, log, 0, from), RangeOps(address, log, from, k), RangeOps(address, log, k, to), p);
    }
  }

  lemma {:induction false} DropRoutesOnlyDrops(routes: seq<Route>, p: Text, r: Route)
    requires r in DropRoutes(routes, p)
    ensures r in routes
  {
    if r !in routes[|routes| - 1..] {
      DropRoutesOnlyDrops(routes[..|routes| - 1], p, r);
    }
  }

  lemma {:induction false} MergeRoutesComeFromOps(ops: seq<Op>, r: Route)
    requires r in Merge(ops).newRoutes
    ensures Add(r) in ops
  {
    if ops != [] {
      var n := |ops| - 1;
      if ops[n] != Add(r) {
        if ops[n].Withdraw? {
          DropRoutesOnlyDrops(Merge(ops[..n]).newRoutes, ops[n].prefix, r);
        }
        MergeRoutesComeFromOps(ops[..n], r);
      }
    }
  }

  /** What taking in a merged, then filtered range does to one prefix. */
  lemma FilteredUpdateAt(m: Routes, account: Account, ops: seq<Op>, keep: Route -> bool, p: Text)
    ensures var d := Merge(ops);
            var m' := AddEntries(m - ToSet(d.withdrawn), account, KeepRoutes(d.newRoutes, keep));
            var last := LastOp(ops, p);
            && (last.None? ==> (p in m' <==> p in m) && (p in m ==> m'[p] == m[p]))
            && (last.Some? && last.value.Withdraw? ==> p !in m')
            && (last.Some? && last.value.Add? && keep(last.value.route) ==>
                  p in m' && m'[p] == Entry(account, last.value.route))
            && (p in m' ==>
                  || (p in m && m'[p] == m[p])
                  || (&& m'[p].account == account && m'[p].route.prefix == p
                      && keep(m'[p].route) && Add(m'[p].route) in ops))
  {
    var d := Merge(ops);
    var kept := KeepRoutes(d.newRoutes, keep);
    MergeKeepsLast(ops, p);
    LastKept(d.newRoutes, keep, p);
    AddEntriesAt(m - ToSet(d.withdrawn), account, kept, p);
    var last := LastOp(Adds(kept), p);
    if last.Some? {
      MergeRoutesComeFromOps(ops, last.value.route);
    }
  }

  lemma ViewLookup(s: Sender, k: nat, p: Text)
    ensures var last := LastOp(RangeOps(s.address, s.log, 0, k), p);
            Lookup(ViewAt(s, k), p) == if last.Some? && last.value.Add? then Some(last.value.route) else None
  {
    ReplayAt(map[], RangeOps(s.address, s.log, 0, k), p);
  }

  // ---------------------------------------------------------------- the table half

  lemma AcceptedUpdateShows(s: Sender, me: Text, peer: Account, t: Table, from: nat, to: nat, p: Text)
    requires from <= t.epoch <= to <= Epoch(s)
    requires Untouched(t) || Shows(s, me, peer, t.epoch, t.routes, p)
    ensures var d := Merge(RangeOps(s.address, s.log, from, to));
            var keep := (r: Route) => Keeps(me, r);
            Shows(s, me, peer, to, AddEntries(t.routes - ToSet(d.withdrawn), peer, KeepRoutes(d.newRoutes, keep)), p)
  {
    var ops := RangeOps(s.address, s.log, from, to);
    var keep := (r: Route) => Keeps(me, r);
    var d := Merge(ops);
    var m' := AddEntries(t.routes - ToSet(d.withdrawn), peer, KeepRoutes(d.newRoutes, keep));
    FilteredUpdateAt(t.routes, peer, ops, keep, p);
    LastInRange(s.address, s.log, from, t.epoch, to, p);
    ViewLookup(s, to, p);
    ViewLookup(s, t.epoch, p);
    if p in m' {
      if p in t.routes && m'[p] == t.routes[p] {
        StartIsPartOfWhole(s.address, s.log, t.epoch, to, Add(m'[p].route));
      } else {
        RangeIsPartOfWhole(s.address, s.log, from, to, Add(m'[p].route));
      }
    }
  }

  /** What an update does to the receiver, filtered or not: beyond the receiver's epoch it is a gap,
      behind it nothing changes, and a range with from <= k <= to leads to what the filter lets
      through of the sender's view at `to`. */
  lemma AcceptedUpdateCatchesUp(w: World, u: UpdateRequest)
    requires Inv(w) && u in w.updates
    ensures var k := ReceiverEpoch(w);
            var (t, outcome) := Deliver(w.me, w.table, w.peer, u);
            && t.id == w.sender.id
            && (u.fromEpoch > k ==> outcome == Gap(k, u.fromEpoch) && t.epoch == k)
            && (u.fromEpoch > k && w.table.Some? ==> Some(t) == w.table)
            && (u.fromEpoch <= k && u.toEpoch < k ==> outcome == Changed([]) && Some(t) == w.table)
            && (u.fromEpoch <= k <= u.toEpoch ==>
                  outcome.Changed? && t.epoch == u.toEpoch && ShowsAll(w.sender, w.me, w.peer, t.epoch, t.routes))
  {
    var t := if w.table.Some? then w.table.value else Table(u.tableId, 0, map[]);
    if u.fromEpoch <= t.epoch <= u.toEpoch {
      forall p ensures Shows(w.sender, w.me, w.peer, u.toEpoch, Deliver(w.me, w.table, w.peer, u).0.routes, p) {
        AcceptedUpdateShows(w.sender, w.me, w.peer, t, u.fromEpoch, u.toEpoch, p);
      }
    }
  }

  lemma ShowsInLongerLog(s: Sender, delta: Delta, me: Text, peer: Account, k: nat, routes: Routes, p: Text)
    requires k <= Epoch(s) && Shows(s, me, peer, k, routes, p)
    ensures Shows(s.(log := s.log + [delta]), me, peer, k, routes, p)
  {
    LongerLogSameRange(s, delta, 0, k);
  }

  lemma NextKeepsInv(w: World, step: Step, w': World)
    requires Inv(w) && Next(w, step, w')
    ensures Inv(w')
  {
    EpochNext(w, step, w');
    match step
    case Change(delta) =>
      if w.table.Some? && !Untouched(w.table.value) {
        forall p ensures Shows(w'.sender, w.me, w.peer, w.table.value.epoch, w.table.value.routes, p) {
          ShowsInLongerLog(w.sender, delta, w.me, w.peer, w.table.value.epoch, w.table.value.routes, p);
        }
      }
    case Broadcast => SameLogSameTable(w, w');
    case Start => SameLogSameTable(w, w');
    case Answer(control) => SameLogSameTable(w, w');
    case Arrive(update) => AcceptedUpdateCatchesUp(w, update);
  }

  lemma SameLogSameTable(w: World, w': World)
    requires TableInv(w) && w'.table == w.table && w'.me == w.me && w'.peer == w.peer
    requires w'.sender.(lastSent := 0) == w.sender.(lastSent := 0)
    ensures TableInv(w')
  {
    if w.table.Some? && !Untouched(w.table.value) {
      var t := w.table.value;
      forall p ensures Shows(w'.sender, w'.me, w'.peer, t.epoch, t.routes, p) {
        assert Shows(w.sender, w.me, w.peer, t.epoch, t.routes, p);
      }
    }
  }

  lemma {:induction false} RunKeepsInv(worlds: seq<World>, steps: seq<Step>)
    requires Run(worlds, steps)
    ensures Inv(worlds[|steps|])
  {
    if steps != [] {
      var n := |steps| - 1;
      RunKeepsInv(worlds[..n + 1], steps[..n]);
      NextKeepsInv(worlds[n], steps[n], worlds[n + 1]);
    }
  }

  // ---------------------------------------------------------------- the theorems

  /** Whatever subset of the updates arrived, in whatever order and however often, and whatever the
      filter dropped: for each prefix a receiver at epoch k > 0 holds exactly what the sender's own
      prefix followed by the log entries 0..k says, unless the sender's current route is one the filter
      drops; and it never holds anything but an announced route that passed the filter. */
  lemma ReceiverHoldsReplayAt(worlds: seq<World>, steps: seq<Step>, p: Text)
    requires Run(worlds, steps)
    requires ReceiverEpoch(worlds[|steps|]) > 0
    ensures var w := worlds[|steps|];
            var current := Lookup(ViewAt(w.sender, ReceiverEpoch(w)), p);
            current.None? || Keeps(w.me, current.value) ==> Lookup(RoutesOf(w.table.value.routes), p) == current
    ensures var w := worlds[|steps|];
            var routes := w.table.value.routes;
            p in routes ==>
              && routes[p].account == w.peer && routes[p].route.prefix == p && Keeps(w.me, routes[p].route)
              && Add(routes[p].route) in RangeOps(w.sender.address, w.sender.log, 0, ReceiverEpoch(w))
  {
    RunKeepsInv(worlds, steps);
    var w := worlds[|steps|];
    assert Shows(w.sender, w.me, w.peer, ReceiverEpoch(w), w.table.value.routes, p);
  }

  /** A prefix of which the filter drops every announcement is never in the table. */
  lemma DroppedPrefixIsNeverHeld(worlds: seq<World>, steps: seq<Step>, p: Text)
    requires Run(worlds, steps)
    requires var w := worlds[|steps|];
             forall r :: Add(r) in RangeOps(w.sender.address, w.sender.log, 0, Epoch(w.sender)) && r.prefix == p ==>
               !Keeps(w.me, r)
    ensures var w := worlds[|steps|];
            w.table.Some? ==> p !in w.table.value.routes
  {
    RunKeepsInv(worlds, steps);
    var w := worlds[|steps|];
    if w.table.Some? && !Untouched(w.table.value) {
      var t := w.table.value;
      assert Shows(w.sender, w.me, w.peer, t.epoch, t.routes, p);
      if p in t.routes {
        StartIsPartOfWhole(w.sender.address, w.sender.log, t.epoch, Epoch(w.sender), Add(t.routes[p].route));
      }
    }
  }

  ghost predicate AllKept(me: Text, v: View) {
    forall p :: p in v ==> Keeps(me, v[p])
  }

  /** A table that shows a view is that view, tagged with the peer, exactly if all of it is kept. */
  lemma ShownTableIsView(s: Sender, me: Text, peer: Account, k: nat, routes: Routes)
    requires ShowsAll(s, me, peer, k, routes)
    ensures routes == Tag(peer, ViewAt(s, k)) <==> AllKept(me, ViewAt(s, k))
  {
    var v := ViewAt(s, k);
    if routes == Tag(peer, v) {
      forall p | p in v ensures Keeps(me, v[p]) {
        assert Shows(s, me, peer, k, routes, p);
        assert routes[p] == Entry(peer, v[p]);
      }
    }
    if AllKept(me, v) {
      forall p ensures (p in routes <==> p in v) && (p in v ==> routes[p] == Entry(peer, v[p])) {
        assert Shows(s, me, peer, k, routes, p);
      }
    }
  }

  /** In every run, a receiver at epoch k > 0 holds exactly the sender's own prefix followed by the log
      entries 0..k if and only if its filter keeps every route of that view. */
  lemma ReceiverHoldsReplay(worlds: seq<World>, steps: seq<Step>)
    requires Run(worlds, steps)
    ensures var w := worlds[|steps|];
            var k := ReceiverEpoch(w);
            k > 0 ==>
              (w.table == Some(Table(w.sender.id, k, Tag(w.peer, ViewAt(w.sender, k)))) <==>
               AllKept(w.me, ViewAt(w.sender, k)))
  {
    RunKeepsInv(worlds, steps);
    var w := worlds[|steps|];
    if ReceiverEpoch(w) > 0 {
      ShownTableIsView(w.sender, w.me, w.peer, ReceiverEpoch(w), w.table.value.routes);
    }
  }

  /** Gap recovery, whatever the filter drops: the answer to a control request is never itself a gap,
      whatever arrives before it, and handling it brings the receiver at least to the epoch the answer
      was made for. */
  lemma ReplyIsNeverAGap(worlds: seq<World>, steps: seq<Step>, u: UpdateRequest)
    requires Run(worlds, steps)
    requires u in worlds[|steps|].replies
    ensures var w := worlds[|steps|];
            var (t, outcome) := Deliver(w.me, w.table, w.peer, u);
            && outcome.Changed?
            && t.epoch >= u.toEpoch
            && t.epoch >= ReceiverEpoch(w)
  {
    RunKeepsEpochInv(worlds, steps);
    ArrivalKeepsEpochs(worlds[|steps|], u);
  }

  /** One round trip resynchronises: whichever control request of the run the sender answers now, a
      receiver that gets the answer is at the sender's epoch and shows its current view; it holds
      exactly that view if and only if its filter keeps all of it. */
  lemma OneRoundTripResynchronises(worlds: seq<World>, steps: seq<Step>, control: ControlRequest)
    requires Run(worlds, steps)
    requires control in worlds[|steps|].controls
    ensures var w := worlds[|steps|];
            var (t, outcome) := Deliver(w.me, w.table, w.peer, Reply(w.sender, control));
            var view := ViewAt(w.sender, Epoch(w.sender));
            && outcome.Changed? && t.id == w.sender.id && t.epoch == Epoch(w.sender)
            && ShowsAll(w.sender, w.me, w.peer, t.epoch, t.routes)
            && (t.routes == Tag(w.peer, view) <==> AllKept(w.me, view))
  {
    var w := worlds[|steps|];
    RunKeepsInv(worlds, steps);
    var u := Reply(w.sender, control);
    var w' := w.(updates := w.updates + {u}, replies := w.replies + {u});
    NextKeepsInv(w, Answer(control), w');
    AcceptedUpdateCatchesUp(w', u);
    var t := Deliver(w.me, w.table, w.peer, u).0;
    ShownTableIsView(w.sender, w.me, w.peer, t.epoch, t.routes);
  }

  // ---------------------------------------------------------------- if the filter drops nothing

  /** Nothing the sender ever announces is dropped by the receiver's filter. */
  ghost predicate NothingFiltered(w: World) {
    && Keeps(w.me, OwnRoute(w.sender.address))
    && forall i, r :: 0 <= i < |w.sender.log| && r in w.sender.log[i].newRoutes ==> Keeps(w.me, r)
  }

  lemma {:induction false} LogRoutesComeFromDeltas(log: seq<Delta>, r: Route)
    requires Add(r) in LogOps(log)
    ensures exists i :: 0 <= i < |log| && r in log[i].newRoutes
  {
    var n := |log| - 1;
    if Add(r) in LogOps(log[..n]) {
      LogRoutesComeFromDeltas(log[..n], r);
      var i :| 0 <= i < n && r in log[..n][i].newRoutes;
      assert log[i] == log[..n][i];
    }
  }

  lemma RangeRoutesComeFromSender(s: Sender, from: nat, to: nat, r: Route)
    requires Add(r) in RangeOps(s.address, s.log, from, to)
    ensures r == OwnRoute(s.address) || exists i :: 0 <= i < |s.log| && r in s.log[i].newRoutes
  {
    var range := Range(s.log, from, to);
    if Add(r) in LogOps(range) {
      LogRoutesComeFromDeltas(range, r);
      var i :| 0 <= i < |range| && r in range[i].newRoutes;
      assert s.log[from + i] == range[i];
    }
  }

  /** A sender whose announcements all pass the filter is always shown in full. */
  lemma UnfilteredSenderIsHeldInFull(worlds: seq<World>, steps: seq<Step>)
    requires Run(worlds, steps) && NothingFiltered(worlds[|steps|])
    ensures var w := worlds[|steps|];
            var k := ReceiverEpoch(w);
            k > 0 ==> w.table == Some(Table(w.sender.id, k, Tag(w.peer, ViewAt(w.sender, k))))
  {
    var w := worlds[|steps|];
    var k := ReceiverEpoch(w);
    forall p | p in ViewAt(w.sender, k) ensures Keeps(w.me, ViewAt(w.sender, k)[p]) {
      ViewLookup(w.sender, k, p);
      RangeRoutesComeFromSender(w.sender, 0, k, ViewAt(w.sender, k)[p]);
    }
    ReceiverHoldsReplay(worlds, steps);
  }

  // ---------------------------------------------------------------- where the assumptions matter

  lemma TagIsInjective(peer: Account, v: View, w: View)
    ensures Tag(peer, v) == Tag(peer, w) <==> v == w
  {
    if Tag(peer, v) == Tag(peer, w) {
      assert v.Keys == Tag(peer, v).Keys == w.Keys;
      forall p | p in v ensures v[p] == w[p] {
        assert Tag(peer, v)[p] == Tag(peer, w)[p];
      }
    }
  }

  /** A receiver that still holds routes of another table of this peer ends up with the sender's view
      after a full update if and only if that update names every prefix it holds. */
  lemma RestartLeavesUnnamedRoutes(s: Sender, peer: Account, t: Table, held: View, k: nat)
    requires t.id != s.id && t.routes == Tag(peer, held)
    requires k <= Epoch(s)
    ensures var u := CreateUpdate(s, 0, k);
            Accept(t, peer, u).0 == Table(s.id, k, Tag(peer, ViewAt(s, k))) <==>
            held.Keys <= Prefixes(u.newRoutes) + ToSet(u.withdrawn)
  {
    var u := CreateUpdate(s, 0, k);
    var ops := RangeOps(s.address, s.log, 0, k);
    AcceptIsApplyDelta(AdoptId(t, s.id), peer, held, u);
    StaleRoutesSurviveUnlessNamed(held, ops);
    TagIsInjective(peer, ApplyDelta(held, Merge(ops)), ViewAt(s, k));
  }

  /** A receiver whose filter drops routes gets from a merged range what the filtered epochs would have
      given one by one if and only if no prefix it holds lost its withdrawal to a dropped route. */
  lemma FilteredRangeCanHideWithdrawals(s: Sender, me: Text, peer: Account, t: Table, held: View, from: nat, to: nat)
    requires t.id == s.id && t.routes == Tag(peer, held)
    requires from <= t.epoch <= to <= Epoch(s)
    ensures var ops := RangeOps(s.address, s.log, from, to);
            var kept := KeepOps(ops, (r: Route) => Keeps(me, r));
            var after := Accept(t, peer, Filter(me, CreateUpdate(s, from, to))).0;
            after == Table(s.id, to, Tag(peer, Replay(held, kept))) <==>
            held.Keys !! ToSet(Merge(kept).withdrawn) - ToSet(Merge(ops).withdrawn)
  {
    var keep := (r: Route) => Keeps(me, r);
    var ops := RangeOps(s.address, s.log, from, to);
    var u := Filter(me, CreateUpdate(s, from, to));
    AcceptIsApplyDelta(t, peer, held, u);
    FilterAfterMerge(held, ops, keep);
    TagIsInjective(peer, ApplyDelta(held, Delta(u.newRoutes, u.withdrawn)), Replay(held, KeepOps(ops, keep)));
  }
}
