/** Routing tables: the view a node keeps of each peer, and its own local and forwarding tables. */
module RoutingTables {
  import opened Options
  import opened Text
  import opened CcpTypes
  import opened RouteLog

  type Routes = map<Text, Entry>

  datatype Table = Table(id: TableId, epoch: nat, routes: Routes)

  // ---------------------------------------------------------------- longest-prefix lookup

  /** The longest prefix of `address` of length at most `n` that is a key. */
  function LongestKey(m: Routes, address: Text, n: nat): (key: Option<Text>)
    requires n <= |address|
    ensures key.Some? ==> key.value in m && key.value <= address
  {
    if address[..n] in m then Some(address[..n])
    else if n == 0 then None
    else LongestKey(m, address, n - 1)
  }

  function Resolve(m: Routes, address: Text): Option<Entry> {
    match LongestKey(m, address, |address|)
    case Some(key) => Some(m[key])
    case None => None
  }

  /** `key` is a key of `m` that matches `address`, and no longer key does. */
  ghost predicate IsLongestMatch(m: Routes, address: Text, key: Text) {
    && key in m && key <= address
    && forall p :: p in m && p <= address ==> |p| <= |key|
  }

  lemma {:induction false} LongestKeyBelow(m: Routes, address: Text, n: nat, p: Text)
    requires n <= |address|
    requires p in m && p <= address && |p| <= n
    ensures LongestKey(m, address, n).Some? && |p| <= |LongestKey(m, address, n).value|
  {
    if address[..n] !in m {
      assert p == address[..|p|];
      LongestKeyBelow(m, address, n - 1, p);
    }
  }

  /** The entry found does not depend on the order in which the keys are visited: a longest
      match is unique, and `Resolve` returns it exactly when there is any match. */
  lemma ResolveIsLongestMatch(m: Routes, address: Text)
    ensures forall key :: IsLongestMatch(m, address, key) ==> Resolve(m, address) == Some(m[key])
    ensures Resolve(m, address).None? <==> forall p :: p in m ==> !(p <= address)
  {
    forall p | p in m && p <= address
      ensures LongestKey(m, address, |address|).Some? && |p| <= |LongestKey(m, address, |address|).value|
    {
      LongestKeyBelow(m, address, |address|, p);
    }
    forall key | IsLongestMatch(m, address, key) ensures Resolve(m, address) == Some(m[key]) {
      LongestKeyBelow(m, address, |address|, key);
      var found := LongestKey(m, address, |address|).value;
      assert |found| == |key| && found == address[..|key|] && key == address[..|key|];
    }
  }

  // ---------------------------------------------------------------- applying an update

  function AddEntries(m: Routes, account: Account, routes: seq<Route>): Routes {
    if routes == [] then m
    else
      var route := routes[|routes| - 1];
      AddEntries(m, account, routes[..|routes| - 1])[route.prefix := Entry(account, route)]
  }

  /** The withdrawn prefixes that were really there, in order of removal. */
  function Removed(m: Routes, withdrawn: seq<Text>): seq<Text> {
    if withdrawn == [] then []
    else
      var n := |withdrawn| - 1;
      Removed(m, withdrawn[..n])
      + if withdrawn[n] in m - ToSet(withdrawn[..n]) then [withdrawn[n]] else []
  }

  /** The announced prefixes that were not there before, in order of insertion. */
  function Inserted(m: Routes, account: Account, routes: seq<Route>): seq<Text> {
    if routes == [] then []
    else
      var n := |routes| - 1;
      Inserted(m, account, routes[..n])
      + if routes[n].prefix in AddEntries(m, account, routes[..n]) then [] else [routes[n].prefix]
  }

  datatype Outcome = Gap(expected: nat, got: nat) | Changed(prefixes: seq<Text>)

  /** A different table id is adopted: the epoch restarts, the routes stay. */
  function AdoptId(t: Table, id: TableId): Table {
    if t.id != id then Table(id, 0, t.routes) else t
  }

  function Accept(t: Table, account: Account, request: UpdateRequest): (Table, Outcome) {
    var t0 := AdoptId(t, request.tableId);
    if request.fromEpoch > t0.epoch then (t0, Gap(t0.epoch, request.fromEpoch))
    else if request.toEpoch < t0.epoch then (t0, Changed([]))
    else
      var kept := t0.routes - ToSet(request.withdrawn);
      (Table(t0.id, request.toEpoch, AddEntries(kept, account, request.newRoutes)),
       Changed(Removed(t0.routes, request.withdrawn) + Inserted(kept, account, request.newRoutes)))
  }

  lemma {:induction false} AddEntriesKeys(m: Routes, account: Account, routes: seq<Route>)
    ensures AddEntries(m, account, routes).Keys == m.Keys + Prefixes(routes)
  {
    if routes != [] {
      var n := |routes| - 1;
      AddEntriesKeys(m, account, routes[..n]);
      assert Prefixes(routes) == Prefixes(routes[..n]) + {routes[n].prefix};
    }
  }

  lemma {:induction false} RemovedContains(m: Routes, withdrawn: seq<Text>, p: Text)
    ensures p in Removed(m, withdrawn) <==> p in m && p in withdrawn
  {
    if withdrawn != [] {
      RemovedContains(m, withdrawn[..|withdrawn| - 1], p);
    }
  }

  lemma {:induction false} InsertedContains(m: Routes, account: Account, routes: seq<Route>, p: Text)
    ensures p in Inserted(m, account, routes) <==> p !in m && p in Prefixes(routes)
  {
    if routes != [] {
      var n := |routes| - 1;
      InsertedContains(m, account, routes[..n], p);
      AddEntriesKeys(m, account, routes[..n]);
      assert Prefixes(routes) == Prefixes(routes[..n]) + {routes[n].prefix};
    }
  }

  /** The changed prefixes are the ones withdrawn while held, and the ones announced while absent;
      so a prefix outside the list is present after the update exactly if it was before. A route
      that merely replaces another one under its prefix is not reported. */
  lemma ChangedPrefixes(t: Table, account: Account, request: UpdateRequest, p: Text)
    requires request.tableId == t.id && request.fromEpoch <= t.epoch <= request.toEpoch
    ensures var (t', outcome) := Accept(t, account, request);
      && outcome.Changed?
      && (p in outcome.prefixes <==>
           || (p in t.routes && p in request.withdrawn)
           || (p in Prefixes(request.newRoutes) && (p in t.routes ==> p in request.withdrawn)))
      && (p !in outcome.prefixes ==> (p in t'.routes <==> p in t.routes))
  {
    var kept := t.routes - ToSet(request.withdrawn);
    RemovedContains(t.routes, request.withdrawn, p);
    InsertedContains(kept, account, request.newRoutes, p);
    AddEntriesKeys(kept, account, request.newRoutes);
  }

  // ---------------------------------------------------------------- tables as views

  /** The table a peer's view becomes when every entry points at the peer's account. */
  function Tag(account: Account, v: View): Routes {
    map p | p in v :: Entry(account, v[p])
  }

  function RoutesOf(m: Routes): View {
    map p | p in m :: m[p].route
  }

  lemma {:induction false} AddEntriesIsReplay(account: Account, v: View, routes: seq<Route>)
    ensures AddEntries(Tag(account, v), account, routes) == Tag(account, Replay(v, Adds(routes)))
  {
    if routes != [] {
      var n := |routes| - 1;
      AddEntriesIsReplay(account, v, routes[..n]);
      assert Adds(routes)[..n] == Adds(routes[..n]);
      var w := Replay(v, Adds(routes[..n]));
      assert Tag(account, w)[routes[n].prefix := Entry(account, routes[n])]
          == Tag(account, w[routes[n].prefix := routes[n]]);
    }
  }

  /** An accepted update acts on the table exactly as its delta acts on the view. */
  lemma AcceptIsApplyDelta(t: Table, account: Account, v: View, request: UpdateRequest)
    requires t.routes == Tag(account, v)
    requires request.tableId == t.id && request.fromEpoch <= t.epoch <= request.toEpoch
    ensures Accept(t, account, request).0
         == Table(t.id, request.toEpoch, Tag(account, ApplyDelta(v, Delta(request.newRoutes, request.withdrawn))))
  {
    assert t.routes - ToSet(request.withdrawn) == Tag(account, v - ToSet(request.withdrawn));
    AddEntriesIsReplay(account, v - ToSet(request.withdrawn), request.newRoutes);
  }

  // ---------------------------------------------------------------- the mutable table

  /** A routing table with its id, its epoch and its prefix map, updated in place. */
  class RoutingTable {
    var id: TableId
    var epoch: nat
    var routes: Routes

    function Snapshot(): Table
      reads this
    {
      Table(id, epoch, routes)
    }

    constructor (id: TableId)
      ensures Snapshot() == Table(id, 0, map[])
    {
      this.id := id;
      epoch := 0;
      routes := map[];
    }

    method IncrementEpoch() returns (previous: nat)
      modifies this
      ensures previous == old(epoch)
      ensures Snapshot() == old(Snapshot()).(epoch := old(epoch) + 1)
    {
      previous := epoch;
      epoch := epoch + 1;
    }

    method SetRoute(prefix: Text, account: Account, route: Route)
      modifies this`routes
      ensures Snapshot() == old(Snapshot()).(routes := old(routes)[prefix := Entry(account, route)])
    {
      routes := routes - {prefix};
      routes := routes[prefix := Entry(account, route)];
    }

    method DeleteRoute(prefix: Text) returns (existed: bool)
      modifies this`routes
      ensures existed == (prefix in old(routes))
      ensures Snapshot() == old(Snapshot()).(routes := old(routes) - {prefix})
    {
      existed := prefix in routes;
      routes := routes - {prefix};
    }

    method AddRoute(account: Account, route: Route) returns (inserted: bool)
      modifies this`routes
      ensures inserted == (route.prefix !in old(routes))
      ensures Snapshot() == old(Snapshot()).(routes := old(routes)[route.prefix := Entry(account, route)])
    {
      inserted := route.prefix !in routes;
      routes := routes[route.prefix := Entry(account, route)];
    }

    /** Scans the map in an arbitrary order, keeping the longest match seen so far. */
    method GetRoute(address: Text) returns (found: Option<Entry>)
      ensures found == Resolve(routes, address)
    {
      var best: Option<Text> := None;
      var todo := routes.Keys;
      while todo != {}
        invariant todo <= routes.Keys
        invariant best.None? ==> forall p :: p in routes && p !in todo ==> !(p <= address)
        invariant best.Some? ==>
          && best.value in routes && best.value <= address
          && forall p :: p in routes && p !in todo && p <= address ==> |p| <= |best.value|
        decreases todo
      {
        var p :| p in todo;
        todo := todo - {p};
        if p <= address && (best.None? || |p| >= |best.value|) {
          best := Some(p);
        }
      }
      ResolveIsLongestMatch(routes, address);
      if best.Some? {
        assert IsLongestMatch(routes, address, best.value);
        found := Some(routes[best.value]);
      } else {
        found := None;
      }
    }

    /** Delete the withdrawn prefixes, collecting those that were there. */
    method RemoveWithdrawn(withdrawn: seq<Text>) returns (removed: seq<Text>)
      modifies this`routes
      ensures routes == old(routes) - ToSet(withdrawn) && removed == Removed(old(routes), withdrawn)
    {
      removed := [];
      for i := 0 to |withdrawn|
        invariant routes == old(routes) - ToSet(withdrawn[..i])
        invariant removed == Removed(old(routes), withdrawn[..i])
      {
        var existed := DeleteRoute(withdrawn[i]);
        if existed {
          removed := removed + [withdrawn[i]];
        }
        assert withdrawn[..i + 1][..i] == withdrawn[..i];
      }
      assert withdrawn[..|withdrawn|] == withdrawn;
    }

    /** Add the announced routes, collecting the prefixes that were not there. */
    method InsertAnnounced(account: Account, announced: seq<Route>) returns (inserted: seq<Text>)
      modifies this`routes
      ensures routes == AddEntries(old(routes), account, announced)
      ensures inserted == Inserted(old(routes), account, announced)
    {
      inserted := [];
      for i := 0 to |announced|
        invariant routes == AddEntries(old(routes), account, announced[..i])
        invariant inserted == Inserted(old(routes), account, announced[..i])
      {
        var isNew := AddRoute(account, announced[i]);
        if isNew {
          inserted := inserted + [announced[i].prefix];
        }
        assert announced[..i + 1][..i] == announced[..i];
      }
      assert announced[..|announced|] == announced;
    }

    method HandleUpdateRequest(account: Account, request: UpdateRequest) returns (outcome: Outcome)
      modifies this
      ensures (Snapshot(), outcome) == Accept(old(Snapshot()), account, request)
    {
      if id != request.tableId {
        id := request.tableId;
        epoch := 0;
      }
      if request.fromEpoch > epoch {
        return Gap(epoch, request.fromEpoch);
      }
      if request.toEpoch < epoch {
        return Changed([]);
      }
      epoch := request.toEpoch;
      var removed := RemoveWithdrawn(request.withdrawn);
      var inserted := InsertAnnounced(account, request.newRoutes);
      outcome := Changed(removed + inserted);
    }
  }
}
