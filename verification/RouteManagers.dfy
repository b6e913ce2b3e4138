/** The route manager of one node: it decides which of its routes changed, installs the changes in
    its local and forwarding tables, and logs what it will tell its peers. */
module RouteManagers {
  import opened Options
  import opened Text
  import opened CcpTypes
  import opened RouteLog
  import opened RoutingTables
  import opened BestRoutes
  import opened Sync

  type Hash = seq<Byte> -> seq<Byte>

  datatype Manager = Manager(
    address: Text, local: Routes, forwarding: Table, log: seq<Delta>, incoming: Incoming)

  function NewManager(address: Text, id: TableId): Manager {
    Manager(address, map[], Table(id, 0, map[]), [], map[])
  }

  // ---------------------------------------------------------------- deciding

  /** A prefix and the entry it should get. */
  datatype Pick = Pick(prefix: Text, entry: Entry)

  /** The outcome of checking some prefixes; it is installed later, under other locks. */
  datatype Job = Job(better: seq<Pick>, gone: seq<Text>)

  datatype Decision = Same | Better(entry: Entry) | Gone

  ghost function Decide(m: Manager, local: map<Text, Account>, configured: map<Text, Account>, prefix: Text): Decision {
    match BestRoute(local, configured, m.incoming, prefix)
    case None => Gone
    case Some(best) =>
      match Resolve(m.local, prefix)
      case Some(current) => if current.account.id == best.account.id then Same else Better(best)
      case None => Better(best)
  }

  ghost function DecideAll(
    m: Manager, local: map<Text, Account>, configured: map<Text, Account>, prefixes: seq<Text>): Job
  {
    if prefixes == [] then Job([], [])
    else
      var n := |prefixes| - 1;
      var job := DecideAll(m, local, configured, prefixes[..n]);
      match Decide(m, local, configured, prefixes[n])
      case Same => job
      case Better(entry) => job.(better := job.better + [Pick(prefixes[n], entry)])
      case Gone => job.(gone := job.gone + [prefixes[n]])
  }

  // ---------------------------------------------------------------- installing

  /** We advertise what lies inside our scheme, our own address but nothing else below it that is
      local, and nothing that is being withdrawn. */
  predicate MayAdvertise(address: Text, pick: Pick, gone: seq<Text>) {
    var route := pick.entry.route;
    && Scheme(address) <= route.prefix && route.prefix != Scheme(address)
    && (route.prefix == address || !(address <= route.prefix && route.path == []))
    && pick.prefix !in gone
  }

  /** The route as our peers see it: one hop longer, with its auth hashed once more. */
  function Advertise(hash: Hash, address: Text, route: Route): Route {
    route.(path := [address] + route.path, auth := hash(route.auth))
  }

  datatype Tables = Tables(local: Routes, forwarding: Routes, newRoutes: seq<Route>)

  predicate Forwards(address: Text, t: Tables, pick: Pick, gone: seq<Text>) {
    && MayAdvertise(address, pick, gone)
    && var current := Resolve(t.forwarding, pick.prefix);
       current.None? || current.value.account.id != pick.entry.account.id
  }

  function InstallOne(hash: Hash, address: Text, t: Tables, pick: Pick, gone: seq<Text>): Tables {
    var local := t.local[pick.prefix := pick.entry];
    if Forwards(address, t, pick, gone) then
      var route := Advertise(hash, address, pick.entry.route);
      Tables(local, t.forwarding[pick.prefix := Entry(pick.entry.account, route)], t.newRoutes + [route])
    else
      Tables(local, t.forwarding, t.newRoutes)
  }

  function Install(hash: Hash, address: Text, t: Tables, picks: seq<Pick>, gone: seq<Text>): Tables {
    if picks == [] then t
    else InstallOne(hash, address, Install(hash, address, t, picks[..|picks| - 1], gone), picks[|picks| - 1], gone)
  }

  function Commit(hash: Hash, m: Manager, job: Job): Manager {
    if job.better == [] && job.gone == [] then m
    else
      var t := Install(hash, m.address, Tables(m.local, m.forwarding.routes, []), job.better, job.gone);
      m.(local := t.local - ToSet(job.gone),
         forwarding := Table(m.forwarding.id, m.forwarding.epoch + 1, t.forwarding - ToSet(job.gone)),
         log := m.log + [Delta(t.newRoutes, job.gone)])
  }

  // ---------------------------------------------------------------- receiving

  function PeerTable(m: Manager, id: AccountId): Option<Table> {
    if id in m.incoming then Some(m.incoming[id]) else None
  }

  function Receive(m: Manager, peer: Account, update: UpdateRequest): Manager {
    m.(incoming := m.incoming[peer.id := Deliver(m.address, PeerTable(m, peer.id), peer, update).0])
  }

  function SenderOf(m: Manager, lastSent: nat): Sender {
    Sender(m.forwarding.id, m.address, m.log, lastSent)
  }

  // ---------------------------------------------------------------- what every operation keeps

  /** The forwarding epoch counts the log entries, and only routes we use ourselves are forwarded. */
  predicate Consistent(m: Manager) {
    && m.forwarding.epoch == |m.log|
    && m.forwarding.routes.Keys <= m.local.Keys
    && OwnEntries(m.incoming)
  }

  lemma {:induction false} InstallKeepsKeys(hash: Hash, address: Text, t: Tables, picks: seq<Pick>, gone: seq<Text>)
    requires t.forwarding.Keys <= t.local.Keys
    ensures Install(hash, address, t, picks, gone).forwarding.Keys <= Install(hash, address, t, picks, gone).local.Keys
  {
    if picks != [] {
      InstallKeepsKeys(hash, address, t, picks[..|picks| - 1], gone);
    }
  }

  lemma CommitKeepsConsistent(hash: Hash, m: Manager, job: Job)
    requires Consistent(m)
    ensures Consistent(Commit(hash, m, job))
  {
    InstallKeepsKeys(hash, m.address, Tables(m.local, m.forwarding.routes, []), job.better, job.gone);
  }

  lemma {:induction false} AddEntriesKeepsOwn(m: Routes, account: Account, routes: seq<Route>)
    requires forall p :: p in m ==> m[p].account.id == account.id
    ensures forall p ::
              p in AddEntries(m, account, routes) ==> AddEntries(m, account, routes)[p].account.id == account.id
  {
    if routes != [] {
      AddEntriesKeepsOwn(m, account, routes[..|routes| - 1]);
    }
  }

  lemma ReceiveKeepsConsistent(m: Manager, peer: Account, update: UpdateRequest)
    requires Consistent(m)
    ensures Consistent(Receive(m, peer, update))
  {
    var t := if peer.id in m.incoming then m.incoming[peer.id] else Table(update.tableId, 0, map[]);
    var u := Filter(m.address, update);
    AddEntriesKeepsOwn(t.routes - ToSet(u.withdrawn), peer, u.newRoutes);
  }

  // ---------------------------------------------------------------- the log is the table

  predicate LogIsTable(m: Manager) {
    RoutesOf(m.forwarding.routes) == Replay(map[], LogOps(m.log))
  }

  /** Every pick that is forwarded when its turn comes is advertised under the prefix it is stored
      under; the others do not matter. */
  predicate AlignedPicks(hash: Hash, address: Text, t: Tables, picks: seq<Pick>, gone: seq<Text>) {
    picks == [] ||
    var n := |picks| - 1;
    && AlignedPicks(hash, address, t, picks[..n], gone)
    && (Forwards(address, Install(hash, address, t, picks[..n], gone), picks[n], gone) ==>
          picks[n].entry.route.prefix == picks[n].prefix)
  }

  predicate Aligned(hash: Hash, m: Manager, job: Job) {
    AlignedPicks(hash, m.address, Tables(m.local, m.forwarding.routes, []), job.better, job.gone)
  }

  /** A prefix checked twice gets the same entry twice. */
  predicate OneEntryEach(picks: seq<Pick>) {
    forall a, b :: a in picks && b in picks && a.prefix == b.prefix ==> a == b
  }

  lemma {:induction false} InstallIsReplay(
    hash: Hash, address: Text, t: Tables, v: View, picks: seq<Pick>, gone: seq<Text>)
    requires t.newRoutes == []
    requires RoutesOf(t.forwarding) == v
    requires AlignedPicks(hash, address, t, picks, gone)
    ensures var t' := Install(hash, address, t, picks, gone);
            RoutesOf(t'.forwarding) == Replay(v, Adds(t'.newRoutes))
  {
    if picks != [] {
      var n := |picks| - 1;
      InstallIsReplay(hash, address, t, v, picks[..n], gone);
      var t1 := Install(hash, address, t, picks[..n], gone);
      if Forwards(address, t1, picks[n], gone) {
        var route := Advertise(hash, address, picks[n].entry.route);
        AddsSnoc(t1.newRoutes, route);
        assert RoutesOf(t1.forwarding[picks[n].prefix := Entry(picks[n].entry.account, route)])
            == RoutesOf(t1.forwarding)[route.prefix := route];
        ReplayConcat(v, Adds(t1.newRoutes), [Add(route)]);
      }
    }
  }

  lemma {:induction false} WithdrawsAreRemoval(v: View, gone: seq<Text>)
    ensures Replay(v, Withdraws(gone)) == v - ToSet(gone)
  {
    if gone != [] {
      var n := |gone| - 1;
      WithdrawsAreRemoval(v, gone[..n]);
      assert Withdraws(gone)[..n] == Withdraws(gone[..n]);
      assert ToSet(gone) == ToSet(gone[..n]) + {gone[n]};
    } else {
      assert v - {} == v;
    }
  }

  /** Installing an aligned job moves the forwarding table and the replay of the log in step. */
  lemma CommitKeepsLogIsTable(hash: Hash, m: Manager, job: Job)
    requires LogIsTable(m) && Aligned(hash, m, job)
    ensures LogIsTable(Commit(hash, m, job))
  {
    if job.better != [] || job.gone != [] {
      var v := RoutesOf(m.forwarding.routes);
      var t0 := Tables(m.local, m.forwarding.routes, []);
      var t := Install(hash, m.address, t0, job.better, job.gone);
      var delta := Delta(t.newRoutes, job.gone);
      calc {
        Replay(map[], LogOps(m.log + [delta]));
        { LogOpsSnoc(m.log, delta); }
        Replay(map[], LogOps(m.log) + EpochOps(delta));
        { ReplayConcat(map[], LogOps(m.log), EpochOps(delta)); }
        Replay(v, Adds(t.newRoutes) + Withdraws(job.gone));
        { ReplayConcat(v, Adds(t.newRoutes), Withdraws(job.gone)); }
        Replay(Replay(v, Adds(t.newRoutes)), Withdraws(job.gone));
        { InstallIsReplay(hash, m.address, t0, v, job.better, job.gone); }
        Replay(RoutesOf(t.forwarding), Withdraws(job.gone));
        { WithdrawsAreRemoval(RoutesOf(t.forwarding), job.gone); }
        RoutesOf(t.forwarding) - ToSet(job.gone);
        RoutesOf(t.forwarding - ToSet(job.gone));
      }
    }
  }

  /** A pick forwarded under another prefix than its own stays in the forwarding table to the end. */
  lemma {:induction false} MisalignedPickStays(
    hash: Hash, address: Text, t: Tables, picks: seq<Pick>, gone: seq<Text>) returns (pick: Pick)
    requires OneEntryEach(picks) && !AlignedPicks(hash, address, t, picks, gone)
    ensures pick in picks && pick.prefix !in gone && pick.entry.route.prefix != pick.prefix
    ensures var forwarding := Install(hash, address, t, picks, gone).forwarding;
            pick.prefix in forwarding && forwarding[pick.prefix].route.prefix == pick.entry.route.prefix
  {
    var n := |picks| - 1;
    if AlignedPicks(hash, address, t, picks[..n], gone) {
      pick := picks[n];
    } else {
      pick := MisalignedPickStays(hash, address, t, picks[..n], gone);
      assert picks[n] in picks && pick in picks;
    }
  }

  /** Exactly when a commit keeps them equal: for a job with one entry per prefix, the log still
      replays to the forwarding table if and only if every pick that is forwarded is advertised under
      the prefix it is stored under. */
  lemma LogStaysTableIffAligned(hash: Hash, m: Manager, job: Job)
    requires LogIsTable(m) && OneEntryEach(job.better)
    ensures LogIsTable(Commit(hash, m, job)) <==> Aligned(hash, m, job)
  {
    if Aligned(hash, m, job) {
      CommitKeepsLogIsTable(hash, m, job);
    } else {
      var m' := Commit(hash, m, job);
      var pick := MisalignedPickStays(
        hash, m.address, Tables(m.local, m.forwarding.routes, []), job.better, job.gone);
      assert pick.prefix in RoutesOf(m'.forwarding.routes);
      if LogIsTable(m') {
        ReplayIsKeyed(LogOps(m'.log), pick.prefix);
      }
    }
  }

  /** For example the first route a manager commits: it must be stored under the prefix it is
      announced under, unless it is not announced at all. */
  lemma FirstCommitNeedsAlignment(hash: Hash, m: Manager, pick: Pick)
    requires m.forwarding.routes == map[] && m.log == []
    ensures LogIsTable(Commit(hash, m, Job([pick], [])))
       <==> !MayAdvertise(m.address, pick, []) || pick.prefix == pick.entry.route.prefix
  {
    var job := Job([pick], []);
    assert RoutesOf(map[]) == map[] && LogOps([]) == [];
    assert LogIsTable(m);
    LogStaysTableIffAligned(hash, m, job);
    ResolveIsLongestMatch(map[], pick.prefix);
    var t0 := Tables(m.local, map[], []);
    assert job.better[..0] == [] && Install(hash, m.address, t0, job.better[..0], []) == t0;
    assert AlignedPicks(hash, m.address, t0, job.better[..0], []);
  }

  // ---------------------------------------------------------------- what is decided and installed

  /** A prefix is picked exactly if it was checked and its best route leads elsewhere than the local
      table does, or the local table leads nowhere. */
  lemma {:induction false} DecideAllBetter(
    m: Manager, local: map<Text, Account>, configured: map<Text, Account>, prefixes: seq<Text>, pick: Pick)
    ensures pick in DecideAll(m, local, configured, prefixes).better
       <==> pick.prefix in prefixes && Decide(m, local, configured, pick.prefix) == Better(pick.entry)
    ensures pick in DecideAll(m, local, configured, prefixes).better
       <==> && pick.prefix in prefixes && BestRoute(local, configured, m.incoming, pick.prefix) == Some(pick.entry)
            && var now := Resolve(m.local, pick.prefix);
               now.None? || now.value.account.id != pick.entry.account.id
  {
    if prefixes != [] {
      DecideAllBetter(m, local, configured, prefixes[..|prefixes| - 1], pick);
    }
  }

  /** A prefix is withdrawn exactly if it was checked and has no route left, held or not. */
  lemma {:induction false} DecideAllGone(
    m: Manager, local: map<Text, Account>, configured: map<Text, Account>, prefixes: seq<Text>, p: Text)
    ensures p in DecideAll(m, local, configured, prefixes).gone
       <==> p in prefixes && Decide(m, local, configured, p) == Gone
    ensures p in DecideAll(m, local, configured, prefixes).gone
       <==> p in prefixes && BestRoute(local, configured, m.incoming, p).None?
  {
    if prefixes != [] {
      DecideAllGone(m, local, configured, prefixes[..|prefixes| - 1], p);
    }
  }

  /** Installing picks changes the local table only under the picked prefixes. */
  lemma {:induction false} InstallLocal(
    hash: Hash, address: Text, t: Tables, picks: seq<Pick>, gone: seq<Text>, p: Text)
    ensures var t' := Install(hash, address, t, picks, gone);
      || (p in t'.local && Pick(p, t'.local[p]) in picks)
      || ((forall pick :: pick in picks ==> pick.prefix != p)
          && (p in t'.local <==> p in t.local) && (p in t.local ==> t'.local[p] == t.local[p]))
  {
    if picks != [] {
      var n := |picks| - 1;
      InstallLocal(hash, address, t, picks[..n], gone, p);
      assert forall pick :: pick in picks <==> pick in picks[..n] || pick == picks[n];
    }
  }

  lemma DecidedPicksAreOneEach(
    m: Manager, local: map<Text, Account>, configured: map<Text, Account>, prefixes: seq<Text>)
    ensures OneEntryEach(DecideAll(m, local, configured, prefixes).better)
  {
    var picks := DecideAll(m, local, configured, prefixes).better;
    forall a, b | a in picks && b in picks && a.prefix == b.prefix ensures a == b {
      DecideAllBetter(m, local, configured, prefixes, a);
      DecideAllBetter(m, local, configured, prefixes, b);
    }
  }

  // ---------------------------------------------------------------- the loops over tables and log

  /** Set the decided routes one by one, collecting what is to be announced. */
  method InstallPicks(hash: Hash, address: Text, local: RoutingTable, forwarding: RoutingTable, job: Job)
    returns (newRoutes: seq<Route>)
    requires local != forwarding
    modifies local, forwarding
    ensures Tables(local.routes, forwarding.routes, newRoutes)
         == Install(hash, address, Tables(old(local.routes), old(forwarding.routes), []), job.better, job.gone)
    ensures forwarding.id == old(forwarding.id) && forwarding.epoch == old(forwarding.epoch)
  {
    ghost var start := Tables(local.routes, forwarding.routes, []);
    newRoutes := [];
    for i := 0 to |job.better|
      invariant Tables(local.routes, forwarding.routes, newRoutes)
             == Install(hash, address, start, job.better[..i], job.gone)
      invariant forwarding.id == old(forwarding.id) && forwarding.epoch == old(forwarding.epoch)
    {
      assert job.better[..i + 1][..i] == job.better[..i];
      var pick := job.better[i];
      local.SetRoute(pick.prefix, pick.entry.account, pick.entry.route);
      if MayAdvertise(address, pick, job.gone) {
        var current := forwarding.GetRoute(pick.prefix);
        if current.None? || current.value.account.id != pick.entry.account.id {
          var route := Advertise(hash, address, pick.entry.route);
          forwarding.SetRoute(pick.prefix, pick.entry.account, route);
          newRoutes := newRoutes + [route];
        }
      }
    }
    assert job.better[..|job.better|] == job.better;
  }

  /** The keys of a hash map, in whatever order it yields them. */
  method Enumerate(keys: set<Text>) returns (order: seq<Text>)
    ensures ToSet(order) == keys
  {
    order := [];
    var todo := keys;
    while todo != {}
      invariant todo <= keys
      invariant ToSet(order) == keys - todo
      decreases todo
    {
      var key :| key in todo;
      todo := todo - {key};
      assert ToSet(order + [key]) == ToSet(order) + {key};
      order := order + [key];
    }
  }

  /** Delete the withdrawn prefixes from both tables. */
  method RemoveGone(local: RoutingTable, forwarding: RoutingTable, gone: seq<Text>)
    requires local != forwarding
    modifies local, forwarding
    ensures local.routes == old(local.routes) - ToSet(gone)
    ensures forwarding.Snapshot() == old(forwarding.Snapshot()).(routes := old(forwarding.routes) - ToSet(gone))
  {
    for i := 0 to |gone|
      invariant local.routes == old(local.routes) - ToSet(gone[..i])
      invariant forwarding.Snapshot()
             == old(forwarding.Snapshot()).(routes := old(forwarding.routes) - ToSet(gone[..i]))
    {
      var _ := local.DeleteRoute(gone[i]);
      var _ := forwarding.DeleteRoute(gone[i]);
      assert ToSet(gone[..i + 1]) == ToSet(gone[..i]) + {gone[i]};
    }
    assert gone[..|gone|] == gone;
  }

  /** The changes of one job to both tables: set, delete, and count the epoch. */
  method InstallTables(hash: Hash, address: Text, local: RoutingTable, forwarding: RoutingTable, job: Job)
    returns (newRoutes: seq<Route>)
    requires local != forwarding
    modifies local, forwarding
    ensures var t0 := Tables(old(local.routes), old(forwarding.routes), []);
            var t := Install(hash, address, t0, job.better, job.gone);
            && newRoutes == t.newRoutes && local.routes == t.local - ToSet(job.gone)
            && forwarding.Snapshot()
               == Table(old(forwarding.id), old(forwarding.epoch) + 1, t.forwarding - ToSet(job.gone))
  {
    newRoutes := InstallPicks(hash, address, local, forwarding, job);
    RemoveGone(local, forwarding, job.gone);
    var _ := forwarding.IncrementEpoch();
  }

  /** Compare one prefix with the table as it is. */
  method DecideOne(
    table: RoutingTable, localRoutes: map<Text, Account>, configured: map<Text, Account>, ghost m: Manager,
    incoming: Incoming, prefix: Text)
    returns (d: Decision)
    requires m.local == table.routes && m.incoming == incoming && OwnEntries(incoming)
    ensures d == Decide(m, localRoutes, configured, prefix)
  {
    var best := GetBestRouteForPrefix(localRoutes, configured, incoming, prefix);
    if best.None? {
      return Gone;
    }
    var current := table.GetRoute(prefix);
    if current.Some? && current.value.account.id == best.value.account.id {
      return Same;
    }
    return Better(best.value);
  }

  /** Merge the new and withdrawn routes of the given epochs, our own prefix first from epoch 0. */
  method MergeRange(address: Text, log: seq<Delta>, from: nat, to: nat)
    returns (newRoutes: seq<Route>, withdrawn: seq<Text>)
    ensures Delta(newRoutes, withdrawn) == Merge(RangeOps(address, log, from, to))
  {
    newRoutes, withdrawn := [], [];
    if from == 0 {
      newRoutes := [OwnRoute(address)];
      MergeOfOne(OwnRoute(address));
    }
    ghost var own := if from == 0 then [Add(OwnRoute(address))] else [];
    var epochs := Range(log, from, to);
    assert own + LogOps(epochs[..0]) == own;
    for i := 0 to |epochs|
      invariant Delta(newRoutes, withdrawn) == Merge(own + LogOps(epochs[..i]))
    {
      newRoutes, withdrawn := MergeEpoch(own + LogOps(epochs[..i]), newRoutes, withdrawn, epochs[i]);
      LogOpsGrow(own, epochs, i);
    }
    assert epochs[..|epochs|] == epochs;
  }

  lemma MergeOfOne(route: Route)
    ensures Merge([Add(route)]) == Delta([route], [])
  {
    assert [Add(route)][..0] == [];
  }

  lemma LogOpsGrow(own: seq<Op>, epochs: seq<Delta>, i: nat)
    requires i < |epochs|
    ensures own + LogOps(epochs[..i + 1]) == own + LogOps(epochs[..i]) + EpochOps(epochs[i])
  {
    assert epochs[..i + 1] == epochs[..i] + [epochs[i]];
    LogOpsSnoc(epochs[..i], epochs[i]);
  }

  lemma {:induction false} DropAbsentPrefix(prefixes: seq<Text>, p: Text)
    requires p !in prefixes
    ensures DropPrefix(prefixes, p) == prefixes
  {
    if prefixes != [] {
      DropAbsentPrefix(prefixes[..|prefixes| - 1], p);
    }
  }

  lemma {:induction false} DropAbsentRoutes(routes: seq<Route>, p: Text)
    requires p !in Prefixes(routes)
    ensures DropRoutes(routes, p) == routes
  {
    if routes != [] {
      var n := |routes| - 1;
      assert Prefixes(routes) == Prefixes(routes[..n]) + {routes[n].prefix};
      DropAbsentRoutes(routes[..n], p);
    }
  }

  lemma MergeSnoc(ops: seq<Op>, op: Op)
    ensures Merge(ops + [op]) == MergeOp(Merge(ops), op)
  {
    assert (ops + [op])[..|ops|] == ops;
  }

  lemma MergeNextAddition(before: seq<Op>, added: seq<Route>, i: nat)
    requires i < |added|
    ensures Merge(before + Adds(added[..i + 1])) == MergeOp(Merge(before + Adds(added[..i])), Add(added[i]))
  {
    assert added[..i + 1] == added[..i] + [added[i]];
    AddsSnoc(added[..i], added[i]);
    assert before + Adds(added[..i + 1]) == (before + Adds(added[..i])) + [Add(added[i])];
    MergeSnoc(before + Adds(added[..i]), Add(added[i]));
  }

  lemma MergeNextWithdrawal(before: seq<Op>, removed: seq<Text>, i: nat)
    requires i < |removed|
    ensures Merge(before + Withdraws(removed[..i + 1]))
         == MergeOp(Merge(before + Withdraws(removed[..i])), Withdraw(removed[i]))
  {
    assert Withdraws(removed[..i + 1]) == Withdraws(removed[..i]) + [Withdraw(removed[i])];
    assert before + Withdraws(removed[..i + 1]) == (before + Withdraws(removed[..i])) + [Withdraw(removed[i])];
    MergeSnoc(before + Withdraws(removed[..i]), Withdraw(removed[i]));
  }

  /** Fold additions into the running merge. */
  method MergeAdditions(ghost before: seq<Op>, newRoutes: seq<Route>, withdrawn: seq<Text>, added: seq<Route>)
    returns (newRoutes': seq<Route>, withdrawn': seq<Text>)
    requires Delta(newRoutes, withdrawn) == Merge(before)
    ensures Delta(newRoutes', withdrawn') == Merge(before + Adds(added))
  {
    newRoutes', withdrawn' := newRoutes, withdrawn;
    assert before + Adds(added[..0]) == before;
    for i := 0 to |added|
      invariant Delta(newRoutes', withdrawn') == Merge(before + Adds(added[..i]))
    {
      var route := added[i];
      MergeNextAddition(before, added, i);
      newRoutes' := newRoutes' + [route];
      if route.prefix in withdrawn' {
        withdrawn' := DropPrefix(withdrawn', route.prefix);
      } else {
        DropAbsentPrefix(withdrawn', route.prefix);
      }
    }
    assert added[..|added|] == added;
  }

  /** Fold withdrawals into the running merge. */
  method MergeWithdrawals(ghost before: seq<Op>, newRoutes: seq<Route>, withdrawn: seq<Text>, removed: seq<Text>)
    returns (newRoutes': seq<Route>, withdrawn': seq<Text>)
    requires Delta(newRoutes, withdrawn) == Merge(before)
    ensures Delta(newRoutes', withdrawn') == Merge(before + Withdraws(removed))
  {
    newRoutes', withdrawn' := newRoutes, withdrawn;
    assert before + Withdraws(removed[..0]) == before;
    for i := 0 to |removed|
      invariant Delta(newRoutes', withdrawn') == Merge(before + Withdraws(removed[..i]))
    {
      var prefix := removed[i];
      MergeNextWithdrawal(before, removed, i);
      withdrawn' := withdrawn' + [prefix];
      if prefix in Prefixes(newRoutes') {
        newRoutes' := DropRoutes(newRoutes', prefix);
      } else {
        DropAbsentRoutes(newRoutes', prefix);
      }
    }
    assert removed[..|removed|] == removed;
  }

  /** Fold one more epoch into the running merge, its additions before its withdrawals. */
  method MergeEpoch(ghost before: seq<Op>, newRoutes: seq<Route>, withdrawn: seq<Text>, epoch: Delta)
    returns (newRoutes': seq<Route>, withdrawn': seq<Text>)
    requires Delta(newRoutes, withdrawn) == Merge(before)
    ensures Delta(newRoutes', withdrawn') == Merge(before + EpochOps(epoch))
  {
    newRoutes', withdrawn' := MergeAdditions(before, newRoutes, withdrawn, epoch.newRoutes);
    newRoutes', withdrawn' := MergeWithdrawals(before + Adds(epoch.newRoutes), newRoutes', withdrawn', epoch.withdrawn);
    assert before + Adds(epoch.newRoutes) + Withdraws(epoch.withdrawn) == before + EpochOps(epoch);
  }

  /** The given prefixes, or every configured and local one. */
  method PrefixesToCheck(localRoutes: map<Text, Account>, configured: map<Text, Account>, prefixes: Option<seq<Text>>)
    returns (checked: seq<Text>)
    ensures match prefixes
            case Some(given) => checked == given
            case None => ToSet(checked) == configured.Keys + localRoutes.Keys
  {
    if prefixes.Some? {
      checked := prefixes.value;
    } else {
      var first := Enumerate(configured.Keys);
      var second := Enumerate(localRoutes.Keys);
      checked := first + second;
    }
  }

  /** The peer's table, or an empty one with the id it announces. */
  function TableFor(tables: Incoming, id: AccountId, tableId: TableId): Table {
    if id in tables then tables[id] else Table(tableId, 0, map[])
  }

  lemma ReceiveIsOneUpdate(m: Manager, peer: Account, update: UpdateRequest, filtered: UpdateRequest)
    requires filtered == Filter(m.address, update)
    ensures var (t, outcome) := Accept(TableFor(m.incoming, peer.id, filtered.tableId), peer, filtered);
            && Receive(m, peer, update) == m.(incoming := m.incoming[peer.id := t])
            && Deliver(m.address, PeerTable(m, peer.id), peer, update).1 == outcome
  {
  }

  /** The table as the store gets it: the next hop of every prefix. */
  function Simplified(m: Routes): map<Text, Account> {
    map p | p in m :: m[p].account
  }

  /** The local and configured routes kept in the store. */
  datatype StoredRoutes = StoredRoutes(local: map<Text, Account>, configured: map<Text, Account>)

  // ---------------------------------------------------------------- the mutable manager

  /** The tables of one node, updated in place; the peers' tables are owned by the manager. */
  class RouteManager {
    const hash: Hash
    const address: Text
    const local: RoutingTable
    const forwarding: RoutingTable
    var log: seq<Delta>
    var lastSent: nat
    var incoming: map<AccountId, RoutingTable>

    function IncomingTables(): Incoming
      reads this, incoming.Values
    {
      map id | id in incoming :: incoming[id].Snapshot()
    }

    ghost function Snapshot(): Manager
      reads this, local, forwarding, incoming.Values
    {
      Manager(address, local.routes, forwarding.Snapshot(), log, IncomingTables())
    }

    ghost predicate Valid()
      reads this, local, forwarding, incoming.Values
    {
      && Separate()
      && Consistent(Snapshot())
      && lastSent <= |log|
    }

    constructor (hash: Hash, address: Text, id: TableId, localId: TableId)
      ensures Valid() && fresh(local) && fresh(forwarding)
      ensures Snapshot() == NewManager(address, id)
    {
      this.hash := hash;
      this.address := address;
      local := new RoutingTable(localId);
      forwarding := new RoutingTable(id);
      log := [];
      lastSent := 0;
      incoming := map[];
    }

    /** Keep the routes that make sense for us, in order. */
    method FilterRoutes(update: UpdateRequest) returns (filtered: UpdateRequest)
      ensures filtered == Filter(address, update)
    {
      var kept: seq<Route> := [];
      ghost var keep := (r: Route) => Keeps(address, r);
      for i := 0 to |update.newRoutes|
        invariant kept == KeepRoutes(update.newRoutes[..i], keep)
      {
        assert update.newRoutes[..i + 1][..i] == update.newRoutes[..i];
        if Keeps(address, update.newRoutes[i]) {
          kept := kept + [update.newRoutes[i]];
        }
      }
      assert update.newRoutes[..|update.newRoutes|] == update.newRoutes;
      filtered := update.(newRoutes := kept);
    }

    /** No two tables are the same object. */
    ghost predicate Separate()
      reads this
    {
      && local != forwarding && local !in incoming.Values && forwarding !in incoming.Values
      && (forall i, j :: i in incoming && j in incoming && i != j ==> incoming[i] != incoming[j])
    }

    /** A peer heard from for the first time gets an empty table with the id it announced. */
    method EnsureTable(id: AccountId, tableId: TableId)
      requires Separate()
      modifies this`incoming
      ensures Separate() && id in incoming && fresh(incoming.Values - old(incoming.Values))
      ensures id in old(incoming) || fresh(incoming[id])
      ensures id in old(incoming) ==> incoming == old(incoming)
      ensures IncomingTables() ==
              if id in old(incoming) then old(IncomingTables())
              else old(IncomingTables())[id := Table(tableId, 0, map[])]
    {
      if id !in incoming {
        var table := new RoutingTable(tableId);
        incoming := incoming[id := table];
        assert IncomingTables() == old(IncomingTables())[id := Table(tableId, 0, map[])];
      }
    }

    /** Only the peer's own table changes. */
    method ApplyToTable(peer: Account, update: UpdateRequest) returns (outcome: Outcome)
      requires Separate() && peer.id in incoming
      modifies incoming[peer.id]
      ensures local.routes == old(local.routes) && forwarding.Snapshot() == old(forwarding.Snapshot())
      ensures var (t, o) := Accept(old(IncomingTables())[peer.id], peer, update);
              outcome == o && IncomingTables() == old(IncomingTables())[peer.id := t]
    {
      var table := incoming[peer.id];
      outcome := table.HandleUpdateRequest(peer, update);
      forall id | id in incoming && id != peer.id ensures incoming[id].Snapshot() == old(incoming[id].Snapshot()) {
        assert incoming[id] != table;
      }
    }

    /** Find or create the peer's table and apply the update to it. */
    method UpdateTable(peer: Account, update: UpdateRequest) returns (outcome: Outcome)
      requires Separate()
      modifies this`incoming, incoming.Values
      ensures Separate() && fresh(incoming.Values - old(incoming.Values))
      ensures local.routes == old(local.routes) && forwarding.Snapshot() == old(forwarding.Snapshot())
      ensures var (t, o) := Accept(TableFor(old(IncomingTables()), peer.id, update.tableId), peer, update);
              outcome == o && IncomingTables() == old(IncomingTables())[peer.id := t]
    {
      EnsureTable(peer.id, update.tableId);
      outcome := ApplyToTable(peer, update);
    }

    method HandleRouteUpdateRequest(peer: Account, update: UpdateRequest) returns (outcome: Outcome)
      requires Valid()
      modifies this`incoming, incoming.Values
      ensures Valid()
      ensures fresh(incoming.Values - old(incoming.Values))
      ensures Snapshot() == Receive(old(Snapshot()), peer, update)
      ensures outcome == Deliver(address, PeerTable(old(Snapshot()), peer.id), peer, update).1
    {
      ghost var m := Snapshot();
      var filtered := FilterRoutes(update);
      outcome := UpdateTable(peer, filtered);
      ReceiveKeepsConsistent(m, peer, update);
      ReceiveIsOneUpdate(m, peer, update, filtered);
    }

    /** Check the given prefixes against the best routes now available. */
    method CheckPrefixes(localRoutes: map<Text, Account>, configured: map<Text, Account>, prefixes: seq<Text>)
      returns (job: Job)
      requires Valid()
      ensures job == DecideAll(Snapshot(), localRoutes, configured, prefixes)
    {
      ghost var m := Snapshot();
      var tables := IncomingTables();
      job := Job([], []);
      for i := 0 to |prefixes|
        invariant job == DecideAll(m, localRoutes, configured, prefixes[..i])
      {
        assert prefixes[..i + 1][..i] == prefixes[..i];
        var d := DecideOne(local, localRoutes, configured, m, tables, prefixes[i]);
        match d
        case Same =>
        case Better(entry) => job := job.(better := job.better + [Pick(prefixes[i], entry)]);
        case Gone => job := job.(gone := job.gone + [prefixes[i]]);
      }
      assert prefixes[..|prefixes|] == prefixes;
    }

    /** Put the decided routes in the local and forwarding tables and log the change. */
    method InstallJob(job: Job) returns (changed: bool)
      requires Valid()
      modifies this`log, local, forwarding
      ensures Valid()
      ensures changed <==> job.better != [] || job.gone != []
      ensures Snapshot() == Commit(hash, old(Snapshot()), job)
    {
      CommitKeepsConsistent(hash, Snapshot(), job);
      if job.better == [] && job.gone == [] {
        return false;
      }
      var newRoutes := InstallTables(hash, address, local, forwarding, job);
      log := log + [Delta(newRoutes, job.gone)];
      return true;
    }

    /** Recheck the given prefixes, or every configured and local one, install what changed and hand the
        simplified local table to the store. If the store cannot be read, nothing happens. */
    method UpdateBestRoutes(stored: Option<StoredRoutes>, prefixes: Option<seq<Text>>)
      returns (checked: seq<Text>, written: Option<map<Text, Account>>)
      requires Valid()
      modifies this`log, local, forwarding
      ensures Valid()
      ensures stored.None? ==> Snapshot() == old(Snapshot()) && written.None?
      ensures stored.Some? ==>
                match prefixes
                case Some(given) => checked == given
                case None => ToSet(checked) == stored.value.configured.Keys + stored.value.local.Keys
      ensures stored.Some? ==>
                var job := DecideAll(old(Snapshot()), stored.value.local, stored.value.configured, checked);
                && Snapshot() == Commit(hash, old(Snapshot()), job)
                && written == if job == Job([], []) then None else Some(Simplified(local.routes))
      ensures written.Some? ==>
                && written.value.Keys == local.routes.Keys
                && forall p :: p in local.routes ==> written.value[p] == local.routes[p].account
    {
      if stored.None? {
        return [], None;
      }
      checked := PrefixesToCheck(stored.value.local, stored.value.configured, prefixes);
      var job := CheckPrefixes(stored.value.local, stored.value.configured, checked);
      var changed := InstallJob(job);
      written := if changed then Some(Simplified(local.routes)) else None;
    }

    /** Merge the given epochs into one update. */
    method CreateRouteUpdate(from: nat, to: nat) returns (update: UpdateRequest)
      requires Valid()
      ensures update == CreateUpdate(SenderOf(Snapshot(), lastSent), from, to)
    {
      var newRoutes, withdrawn := MergeRange(address, log, from, to);
      update := UpdateRequest(
        forwarding.id, forwarding.epoch, from, to, DEFAULT_HOLD_DOWN_TIME, address, newRoutes, withdrawn);
    }

    /** The range since the last broadcast becomes the next broadcast. */
    method NextBroadcast() returns (update: UpdateRequest)
      requires Valid()
      modifies this`lastSent
      ensures Valid() && lastSent == |log|
      ensures update == CreateUpdate(SenderOf(old(Snapshot()), old(lastSent)), old(lastSent), |log|)
    {
      var from := lastSent;
      lastSent := forwarding.epoch;
      update := CreateRouteUpdate(from, forwarding.epoch);
    }
  }
}
