/** The forwarding-table log and the merged deltas cut from it.
    The meaning of a stretch of the log is its replay, one change after another.
    `create_route_update` does not send the stretch but a merged delta; the lemmas here say
    that applying the merged delta is the same as replaying the stretch, and that replaying
    a stretch on top of any part of itself that was already replayed is harmless. */
module RouteLog {
  import opened Options
  import opened Text
  import opened CcpTypes

  /** A routing view without next hops: prefix to route. */
  type View = map<Text, Route>

  /** One change of a view. An epoch is its additions followed by its withdrawals. */
  datatype Op = Add(route: Route) | Withdraw(prefix: Text) {
    function Key(): Text {
      if Add? then route.prefix else prefix
    }
  }

  // ---------------------------------------------------------------- replay

  function ApplyOp(v: View, op: Op): View {
    match op
    case Add(route) => v[route.prefix := route]
    case Withdraw(prefix) => v - {prefix}
  }

  function Replay(v: View, ops: seq<Op>): View {
    if ops == [] then v
    else ApplyOp(Replay(v, ops[..|ops| - 1]), ops[|ops| - 1])
  }

  function Adds(routes: seq<Route>): (ops: seq<Op>)
    ensures |ops| == |routes|
  {
    seq(|routes|, i requires 0 <= i < |routes| => Add(routes[i]))
  }

  function Withdraws(prefixes: seq<Text>): (ops: seq<Op>)
    ensures |ops| == |prefixes|
  {
    seq(|prefixes|, i requires 0 <= i < |prefixes| => Withdraw(prefixes[i]))
  }

  function EpochOps(d: Delta): seq<Op> {
    Adds(d.newRoutes) + Withdraws(d.withdrawn)
  }

  function LogOps(log: seq<Delta>): seq<Op> {
    if log == [] then [] else LogOps(log[..|log| - 1]) + EpochOps(log[|log| - 1])
  }

  /** The node's own prefix, announced at the start of every update from epoch 0. */
  function OwnRoute(address: Text): Route {
    Route(address, [], ZERO_AUTH, [])
  }

  /** `log.iter().skip(from).take(to.saturating_sub(from))` */
  function Range(log: seq<Delta>, from: nat, to: nat): seq<Delta> {
    if from >= to || from >= |log| then [] else log[from..Min(to, |log|)]
  }

  /** Everything an update for the epochs `from..to` stands for. */
  function RangeOps(address: Text, log: seq<Delta>, from: nat, to: nat): seq<Op> {
    (if from == 0 then [Add(OwnRoute(address))] else []) + LogOps(Range(log, from, to))
  }

  lemma LogOpsSnoc(log: seq<Delta>, d: Delta)
    ensures LogOps(log + [d]) == LogOps(log) + EpochOps(d)
  {
    assert (log + [d])[..|log|] == log;
  }

  lemma {:induction false} LogOpsConcat(a: seq<Delta>, b: seq<Delta>)
    ensures LogOps(a + b) == LogOps(a) + LogOps(b)
  {
    if b == [] {
      assert a + b == a;
    } else {
      var start, last := b[..|b| - 1], b[|b| - 1];
      LogOpsConcat(a, start);
      SplitLast(a, b);
      LogOpsSnoc(start, last);
      LogOpsSnoc(a + start, last);
      AppendOps(LogOps(a), LogOps(start), EpochOps(last));
    }
  }

  lemma SplitLast(a: seq<Delta>, b: seq<Delta>)
    requires b != []
    ensures b == b[..|b| - 1] + [b[|b| - 1]] && a + b == (a + b[..|b| - 1]) + [b[|b| - 1]]
  {
  }

  lemma AppendOps(a: seq<Op>, b: seq<Op>, c: seq<Op>)
    ensures (a + b) + c == a + (b + c)
  {
  }

  lemma SliceSplit(log: seq<Delta>, from: nat, mid: nat, to: nat)
    requires from <= mid <= to <= |log|
    ensures log[from..to] == log[from..mid] + log[mid..to]
  {
    var slice := log[from..to];
    assert slice == slice[..mid - from] + slice[mid - from..];
    assert slice[..mid - from] == log[from..mid];
    assert slice[mid - from..] == log[mid..to];
  }

  lemma RangeSplit(log: seq<Delta>, from: nat, mid: nat, to: nat)
    requires from <= mid <= to <= |log|
    ensures Range(log, from, to) == Range(log, from, mid) + Range(log, mid, to)
  {
    if from < mid < to {
      SliceSplit(log, from, mid, to);
    }
  }

  lemma LaterRangeOps(address: Text, log: seq<Delta>, from: nat, to: nat)
    requires 0 < from
    ensures RangeOps(address, log, from, to) == LogOps(Range(log, from, to))
  {
  }

  lemma RangeOpsSplit(address: Text, log: seq<Delta>, from: nat, mid: nat, to: nat)
    requires from <= mid <= to <= |log|
    requires 0 < mid
    ensures RangeOps(address, log, from, to) == RangeOps(address, log, from, mid) + RangeOps(address, log, mid, to)
  {
    RangeSplit(log, from, mid, to);
    LogOpsConcat(Range(log, from, mid), Range(log, mid, to));
    LaterRangeOps(address, log, mid, to);
    var own := if from == 0 then [Add(OwnRoute(address))] else [];
    AppendOps(own, LogOps(Range(log, from, mid)), LogOps(Range(log, mid, to)));
  }

  lemma {:induction false} ReplayConcat(v: View, a: seq<Op>, b: seq<Op>)
    ensures Replay(v, a + b) == Replay(Replay(v, a), b)
  {
    if b == [] {
      assert a + b == a;
    } else {
      ReplayConcat(v, a, b[..|b| - 1]);
      assert (a + b)[..|a + b| - 1] == a + b[..|b| - 1];
    }
  }

  // ---------------------------------------------------------------- last writer wins

  /** The last change of `ops` that concerns `key`. */
  function LastOp(ops: seq<Op>, key: Text): (last: Option<Op>)
    ensures last.Some? ==> last.value in ops && last.value.Key() == key
    ensures last.None? ==> forall i :: 0 <= i < |ops| ==> ops[i].Key() != key
  {
    if ops == [] then None
    else if ops[|ops| - 1].Key() == key then Some(ops[|ops| - 1])
    else LastOp(ops[..|ops| - 1], key)
  }

  function Lookup(v: View, key: Text): Option<Route> {
    if key in v then Some(v[key]) else None
  }

  /** After a replay, each key holds what its last change says; an untouched key keeps its route. */
  lemma {:induction false} ReplayAt(v: View, ops: seq<Op>, key: Text)
    ensures Lookup(Replay(v, ops), key) ==
            match LastOp(ops, key) {
              case None => Lookup(v, key)
              case Some(Add(route)) => Some(route)
              case Some(Withdraw(_)) => None
            }
  {
    if ops != [] {
      ReplayAt(v, ops[..|ops| - 1], key);
    }
  }

  lemma {:induction false} LastOpConcat(a: seq<Op>, b: seq<Op>, key: Text)
    ensures LastOp(a + b, key) == if LastOp(b, key).Some? then LastOp(b, key) else LastOp(a, key)
  {
    if b == [] {
      assert a + b == a;
    } else {
      LastOpConcat(a, b[..|b| - 1], key);
      assert (a + b)[..|a + b| - 1] == a + b[..|b| - 1];
    }
  }

  lemma SameLookupsSameView(v: View, w: View)
    requires forall key :: Lookup(v, key) == Lookup(w, key)
    ensures v == w
  {
    forall key ensures key in v <==> key in w {
      assert Lookup(v, key) == Lookup(w, key);
    }
    forall key | key in v ensures v[key] == w[key] {
      assert Lookup(v, key) == Lookup(w, key);
    }
  }

  /** Absorption: replaying `a + b` after `a` was already replayed gives what `a + b` alone gives. */
  lemma ReplayAbsorbs(v: View, a: seq<Op>, b: seq<Op>)
    ensures Replay(Replay(v, a), a + b) == Replay(v, a + b)
  {
    forall key ensures Lookup(Replay(Replay(v, a), a + b), key) == Lookup(Replay(v, a + b), key) {
      ReplayAt(Replay(v, a), a + b, key);
      ReplayAt(v, a + b, key);
      ReplayAt(v, a, key);
      LastOpConcat(a, b, key);
    }
    SameLookupsSameView(Replay(Replay(v, a), a + b), Replay(v, a + b));
  }

  /** A view at epoch `k` that takes in a range with from <= k <= to moves exactly to epoch `to`. */
  lemma OverlapIsAbsorbed(address: Text, log: seq<Delta>, from: nat, k: nat, to: nat)
    requires from <= k <= to <= |log|
    ensures Replay(Replay(map[], RangeOps(address, log, 0, k)), RangeOps(address, log, from, to))
         == Replay(map[], RangeOps(address, log, 0, to))
  {
    var done := RangeOps(address, log, 0, k);
    if k == 0 {
      WholeRangeOps(address, log, to);
      ReplayAbsorbs(map[], done, LogOps(Range(log, 0, to)));
    } else if from == 0 {
      RangeOpsSplit(address, log, 0, k, to);
      ReplayAbsorbs(map[], done, RangeOps(address, log, k, to));
    } else {
      RangeOpsSplit(address, log, 0, from, k);
      RangeOpsSplit(address, log, 0, from, to);
      RangeOpsSplit(address, log, from, k, to);
      var before := Replay(map[], RangeOps(address, log, 0, from));
      ReplayConcat(map[], RangeOps(address, log, 0, from), RangeOps(address, log, from, k));
      ReplayConcat(map[], RangeOps(address, log, 0, from), RangeOps(address, log, from, to));
      ReplayAbsorbs(before, RangeOps(address, log, from, k), RangeOps(address, log, k, to));
    }
  }

  // ---------------------------------------------------------------- merging

  function DropPrefix(prefixes: seq<Text>, p: Text): (kept: seq<Text>)
    ensures forall x :: x in DropPrefix(prefixes, p) <==> x in prefixes && x != p
  {
    if prefixes == [] then []
    else
      var rest := DropPrefix(prefixes[..|prefixes| - 1], p);
      if prefixes[|prefixes| - 1] == p then rest else rest + [prefixes[|prefixes| - 1]]
  }

  function DropRoutes(routes: seq<Route>, p: Text): seq<Route>
  {
    if routes == [] then []
    else
      var rest := DropRoutes(routes[..|routes| - 1], p);
      if routes[|routes| - 1].prefix == p then rest else rest + [routes[|routes| - 1]]
  }

  /** Fold one more change into a merged delta: the newer change cancels the older one. */
  function MergeOp(d: Delta, op: Op): Delta {
    match op
    case Add(route) => Delta(d.newRoutes + [route], DropPrefix(d.withdrawn, route.prefix))
    case Withdraw(prefix) => Delta(DropRoutes(d.newRoutes, prefix), d.withdrawn + [prefix])
  }

  function Merge(ops: seq<Op>): Delta {
    if ops == [] then Delta([], [])
    else MergeOp(Merge(ops[..|ops| - 1]), ops[|ops| - 1])
  }

  function ToSet(prefixes: seq<Text>): set<Text> {
    set p | p in prefixes
  }

  function Prefixes(routes: seq<Route>): set<Text> {
    set r | r in routes :: r.prefix
  }

  /** What a receiver does with a delta: withdrawals first, then the additions in order. */
  function ApplyDelta(v: View, d: Delta): View {
    Replay(v - ToSet(d.withdrawn), Adds(d.newRoutes))
  }

  lemma AddsSnoc(routes: seq<Route>, route: Route)
    ensures Adds(routes + [route]) == Adds(routes) + [Add(route)]
  {
  }

  lemma {:induction false} LastOpOfAdds(routes: seq<Route>, key: Text)
    ensures LastOp(Adds(routes), key).Some? <==> key in Prefixes(routes)
  {
    if routes != [] {
      var n := |routes| - 1;
      assert routes == routes[..n] + [routes[n]];
      AddsSnoc(routes[..n], routes[n]);
      assert Adds(routes)[..n] == Adds(routes[..n]);
      LastOpOfAdds(routes[..n], key);
      assert Prefixes(routes) == Prefixes(routes[..n]) + {routes[n].prefix};
    }
  }

  lemma {:induction false} LastOpAfterDrop(routes: seq<Route>, p: Text, key: Text)
    ensures LastOp(Adds(DropRoutes(routes, p)), key) == if key == p then None else LastOp(Adds(routes), key)
  {
    if routes != [] {
      var n := |routes| - 1;
      assert routes == routes[..n] + [routes[n]];
      AddsSnoc(routes[..n], routes[n]);
      AddsSnoc(DropRoutes(routes[..n], p), routes[n]);
      LastOpAfterDrop(routes[..n], p, key);
      LastOpConcat(Adds(routes[..n]), [Add(routes[n])], key);
      LastOpConcat(Adds(DropRoutes(routes[..n], p)), [Add(routes[n])], key);
    }
  }

  /** For each prefix a merged delta keeps exactly the last change: it announces the route if the last
      change adds it, and withdraws the prefix if the last change withdraws it. */
  lemma {:induction false} MergeKeepsLast(ops: seq<Op>, key: Text)
    ensures LastOp(Adds(Merge(ops).newRoutes), key)
         == if LastOp(ops, key).Some? && LastOp(ops, key).value.Add? then LastOp(ops, key) else None
    ensures key in Merge(ops).withdrawn <==> LastOp(ops, key).Some? && LastOp(ops, key).value.Withdraw?
  {
    if ops != [] {
      var n := |ops| - 1;
      MergeKeepsLast(ops[..n], key);
      var d := Merge(ops[..n]);
      match ops[n]
      case Add(route) =>
        AddsSnoc(d.newRoutes, route);
        LastOpConcat(Adds(d.newRoutes), [Add(route)], key);
      case Withdraw(prefix) =>
        LastOpAfterDrop(d.newRoutes, prefix, key);
    }
  }

  /** The merged delta means the same as the changes it was merged from, on every view. */
  lemma MergeMeansReplay(v: View, ops: seq<Op>)
    ensures ApplyDelta(v, Merge(ops)) == Replay(v, ops)
  {
    var d := Merge(ops);
    forall key ensures Lookup(ApplyDelta(v, d), key) == Lookup(Replay(v, ops), key) {
      ReplayAt(v, ops, key);
      ReplayAt(v - ToSet(d.withdrawn), Adds(d.newRoutes), key);
      MergeKeepsLast(ops, key);
    }
    SameLookupsSameView(ApplyDelta(v, d), Replay(v, ops));
  }

  /** A prefix is announced by the merged delta exactly if its last change adds it. */
  lemma MergeNames(ops: seq<Op>, key: Text)
    ensures key in Prefixes(Merge(ops).newRoutes) <==> LastOp(ops, key).Some? && LastOp(ops, key).value.Add?
    ensures key in ToSet(Merge(ops).withdrawn) <==> LastOp(ops, key).Some? && LastOp(ops, key).value.Withdraw?
  {
    MergeKeepsLast(ops, key);
    LastOpOfAdds(Merge(ops).newRoutes, key);
  }

  /** No prefix is both announced and withdrawn by a merged delta. */
  lemma MergeIsDisjoint(ops: seq<Op>)
    ensures Prefixes(Merge(ops).newRoutes) !! ToSet(Merge(ops).withdrawn)
  {
    forall key | key in Prefixes(Merge(ops).newRoutes) ensures key !in ToSet(Merge(ops).withdrawn) {
      MergeNames(ops, key);
    }
  }

  /** Two consecutive merged updates act as the one merged update over both ranges. */
  lemma MergeComposes(v: View, address: Text, log: seq<Delta>, i: nat, j: nat, k: nat)
    requires i <= j <= k <= |log|
    ensures ApplyDelta(ApplyDelta(v, Merge(RangeOps(address, log, i, j))), Merge(RangeOps(address, log, j, k)))
         == ApplyDelta(v, Merge(RangeOps(address, log, i, k)))
  {
    var first, second, both := RangeOps(address, log, i, j), RangeOps(address, log, j, k), RangeOps(address, log, i, k);
    MergeMeansReplay(v, first);
    MergeMeansReplay(Replay(v, first), second);
    MergeMeansReplay(v, both);
    RangesCompose(v, address, log, i, j, k);
  }

  lemma WholeRangeOps(address: Text, log: seq<Delta>, k: nat)
    ensures RangeOps(address, log, 0, k) == RangeOps(address, log, 0, 0) + LogOps(Range(log, 0, k))
  {
    assert RangeOps(address, log, 0, 0) == [Add(OwnRoute(address))];
  }

  lemma RangesCompose(v: View, address: Text, log: seq<Delta>, i: nat, j: nat, k: nat)
    requires i <= j <= k <= |log|
    ensures Replay(Replay(v, RangeOps(address, log, i, j)), RangeOps(address, log, j, k))
         == Replay(v, RangeOps(address, log, i, k))
  {
    if j == 0 {
      WholeRangeOps(address, log, k);
      ReplayAbsorbs(v, RangeOps(address, log, 0, 0), LogOps(Range(log, 0, k)));
    } else {
      RangeOpsSplit(address, log, i, j, k);
      ReplayConcat(v, RangeOps(address, log, i, j), RangeOps(address, log, j, k));
    }
  }

  /** What is replayed from nothing is stored under its own prefix. */
  lemma ReplayIsKeyed(ops: seq<Op>, p: Text)
    requires p in Replay(map[], ops)
    ensures Replay(map[], ops)[p].prefix == p
  {
    ReplayAt(map[], ops, p);
  }

  // ---------------------------------------------------------------- leftovers of another table

  /** A receiver that adopts a new table id keeps its old routes. An update from epoch 0 then
      leads to the sender's view if and only if the update names every prefix still held. */
  lemma StaleRoutesSurviveUnlessNamed(held: View, ops: seq<Op>)
    ensures ApplyDelta(held, Merge(ops)) == Replay(map[], ops)
       <==> held.Keys <= Prefixes(Merge(ops).newRoutes) + ToSet(Merge(ops).withdrawn)
  {
    MergeMeansReplay(held, ops);
    var named := Prefixes(Merge(ops).newRoutes) + ToSet(Merge(ops).withdrawn);
    if held.Keys <= named {
      forall key ensures Lookup(Replay(held, ops), key) == Lookup(Replay(map[], ops), key) {
        ReplayAt(held, ops, key);
        ReplayAt(map[], ops, key);
        MergeNames(ops, key);
      }
      SameLookupsSameView(Replay(held, ops), Replay(map[], ops));
    } else {
      var key :| key in held.Keys && key !in named;
      ReplayAt(held, ops, key);
      ReplayAt(map[], ops, key);
      MergeNames(ops, key);
    }
  }

  // ---------------------------------------------------------------- filtering after merging

  function KeepRoutes(routes: seq<Route>, keep: Route -> bool): seq<Route> {
    if routes == [] then []
    else
      var rest := KeepRoutes(routes[..|routes| - 1], keep);
      if keep(routes[|routes| - 1]) then rest + [routes[|routes| - 1]] else rest
  }

  /** The changes a receiver would see if every epoch reached it, and was filtered, on its own. */
  function KeepOps(ops: seq<Op>, keep: Route -> bool): seq<Op> {
    if ops == [] then []
    else
      var rest := KeepOps(ops[..|ops| - 1], keep);
      var op := ops[|ops| - 1];
      if op.Add? && !keep(op.route) then rest else rest + [op]
  }

  lemma {:induction false} KeepCommutesWithDrop(routes: seq<Route>, keep: Route -> bool, p: Text)
    ensures KeepRoutes(DropRoutes(routes, p), keep) == DropRoutes(KeepRoutes(routes, keep), p)
  {
    if routes != [] {
      var n := |routes| - 1;
      KeepCommutesWithDrop(routes[..n], keep, p);
      var dropped := DropRoutes(routes[..n], p);
      var kept := KeepRoutes(routes[..n], keep);
      assert (dropped + [routes[n]])[..|dropped|] == dropped;
      assert (kept + [routes[n]])[..|kept|] == kept;
    }
  }

  /** Filtering commutes with merging on the announcements; only withdrawals can get lost. */
  lemma {:induction false} KeepCommutesWithMerge(ops: seq<Op>, keep: Route -> bool)
    ensures Merge(KeepOps(ops, keep)).newRoutes == KeepRoutes(Merge(ops).newRoutes, keep)
    ensures forall p :: p in Merge(ops).withdrawn ==> p in Merge(KeepOps(ops, keep)).withdrawn
  {
    if ops != [] {
      var n := |ops| - 1;
      KeepCommutesWithMerge(ops[..n], keep);
      var rest := KeepOps(ops[..n], keep);
      assert (rest + [ops[n]])[..|rest|] == rest;
      var d := Merge(ops[..n]);
      match ops[n]
      case Add(route) =>
        assert (d.newRoutes + [route])[..|d.newRoutes|] == d.newRoutes;
      case Withdraw(prefix) =>
        KeepCommutesWithDrop(d.newRoutes, keep, prefix);
    }
  }

  /** The receiver filters a delta only after it was merged. That gives the view the filtered epochs
      would give one by one if and only if no prefix it holds had its withdrawal cancelled by an
      announcement that the filter then drops. */
  lemma FilterAfterMerge(v: View, ops: seq<Op>, keep: Route -> bool)
    ensures ApplyDelta(v, Delta(KeepRoutes(Merge(ops).newRoutes, keep), Merge(ops).withdrawn))
            == Replay(v, KeepOps(ops, keep))
       <==> v.Keys !! ToSet(Merge(KeepOps(ops, keep)).withdrawn) - ToSet(Merge(ops).withdrawn)
  {
    var d, kept := Merge(ops), Merge(KeepOps(ops, keep));
    KeepCommutesWithMerge(ops, keep);
    MergeMeansReplay(v, KeepOps(ops, keep));
    var lost := ToSet(kept.withdrawn) - ToSet(d.withdrawn);
    if v.Keys !! lost {
      assert v - ToSet(kept.withdrawn) == v - ToSet(d.withdrawn);
    } else {
      var key :| key in v.Keys && key in lost;
      MergeKeepsLast(KeepOps(ops, keep), key);
      ReplayAt(v, KeepOps(ops, keep), key);
      ReplayAt(v - ToSet(d.withdrawn), Adds(kept.newRoutes), key);
    }
  }

  /** How it fails: a prefix is withdrawn and announced again by a route the receiver drops.
      The merged update no longer mentions the withdrawal, and the receiver keeps a route its
      peer has given up. */
  lemma DroppedReaddHidesWithdrawal(held: Route, readd: Route, keep: Route -> bool)
    requires held.prefix == readd.prefix && !keep(readd)
    ensures var ops := [Withdraw(held.prefix), Add(readd)];
            var v := map[held.prefix := held];
            && ApplyDelta(v, Delta(KeepRoutes(Merge(ops).newRoutes, keep), Merge(ops).withdrawn)) == v
            && Replay(v, KeepOps(ops, keep)) == map[]
  {
    var p := held.prefix;
    var ops := [Withdraw(p), Add(readd)];
    var v := map[p := held];
    assert ops[..1] == [Withdraw(p)];
    assert Merge(ops[..1]) == Delta([], [p]);
    var ps: seq<Text> := [p];
    assert DropPrefix(ps[..0], p) == [] && DropPrefix(ps, p) == [];
    assert Merge(ops) == MergeOp(Delta([], ps), Add(readd)) == Delta([readd], []);
    var rs: seq<Route> := [readd];
    assert rs[..0] == [];
    assert KeepRoutes(rs, keep) == [];
    assert v - ToSet([]) == v;
    assert ops[..1][..0] == [];
    assert KeepOps(ops[..1], keep) == [Withdraw(p)];
    assert KeepOps(ops, keep) == KeepOps(ops[..1], keep);
    assert Replay(v, [Withdraw(p)]) == v - {p};
  }
}
