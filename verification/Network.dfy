/** A network of route managers with fixed, distinct addresses. Each manager checks prefixes, installs
    the outcome later, sends updates for arbitrary ranges and receives whatever the network delivers.
    In every run no path ever visits a node twice. */
module Network {
  import opened Options
  import opened Text
  import opened CcpTypes
  import opened RouteLog
  import opened RoutingTables
  import opened BestRoutes
  import opened Sync
  import opened RouteManagers

  /** A manager and the checks it has finished but not yet installed. */
  datatype Node = Node(manager: Manager, jobs: set<Job>)

  datatype Packet = Packet(from: Text, to: Text, update: UpdateRequest)

  /** Nodes by address, and every packet ever sent. */
  datatype Net = Net(nodes: map<Text, Node>, packets: set<Packet>)

  ghost predicate Start(net: Net) {
    && net.packets == {}
    && forall a :: a in net.nodes ==> net.nodes[a] == Node(NewManager(a, net.nodes[a].manager.forwarding.id), {})
  }

  datatype Move =
    | Check(at: Text, local: map<Text, Account>, configured: map<Text, Account>, prefixes: seq<Text>)
    | Apply(at: Text, job: Job)
    | Send(at: Text, to: Text, fromEpoch: nat, toEpoch: nat)
    | Handle(packet: Packet, peer: Account)

  ghost predicate Moves(hash: Hash, net: Net, move: Move, net': Net) {
    match move
    case Check(a, local, configured, prefixes) =>
      && a in net.nodes
      && var n := net.nodes[a];
         net' == net.(nodes := net.nodes[a := n.(jobs := n.jobs + {DecideAll(n.manager, local, configured, prefixes)})])
    case Apply(a, job) =>
      && a in net.nodes && job in net.nodes[a].jobs
      && var n := net.nodes[a];
         net' == net.(nodes := net.nodes[a := Node(Commit(hash, n.manager, job), n.jobs - {job})])
    case Send(a, b, from, to) =>
      && a in net.nodes && b in net.nodes
      && var update := CreateUpdate(SenderOf(net.nodes[a].manager, 0), from, to);
         net' == net.(packets := net.packets + {Packet(a, b, update)})
    case Handle(packet, peer) =>
      && packet in net.packets && packet.to in net.nodes
      && var n := net.nodes[packet.to];
         net' == net.(nodes := net.nodes[packet.to := n.(manager := Receive(n.manager, peer, packet.update))])
  }

  ghost predicate NetRun(hash: Hash, nets: seq<Net>, moves: seq<Move>) {
    && |nets| == |moves| + 1
    && Start(nets[0])
    && forall i :: 0 <= i < |moves| ==> Moves(hash, nets[i], moves[i], nets[i + 1])
  }

  // ---------------------------------------------------------------- well-travelled routes

  predicate NoRepeats(path: seq<Text>) {
    forall i, j :: 0 <= i < j < |path| ==> path[i] != path[j]
  }

  function HashedTimes(hash: Hash, n: nat): seq<Byte> {
    if n == 0 then ZERO_AUTH else hash(HashedTimes(hash, n - 1))
  }

  /** The path names nodes of the network, each once, and the auth was hashed once per hop. */
  ghost predicate Travelled(hash: Hash, nodes: set<Text>, r: Route) {
    && NoRepeats(r.path)
    && (forall i :: 0 <= i < |r.path| ==> r.path[i] in nodes)
    && r.auth == HashedTimes(hash, |r.path|)
  }

  /** Acceptable at node `a`: it has not been there yet. */
  ghost predicate NewTo(hash: Hash, nodes: set<Text>, a: Text, r: Route) {
    Travelled(hash, nodes, r) && a !in r.path
  }

  /** Announced by node `a`: it has just been there. */
  ghost predicate From(hash: Hash, nodes: set<Text>, a: Text, r: Route) {
    Travelled(hash, nodes, r) && r.path != [] && r.path[0] == a
  }

  ghost predicate AllNewTo(hash: Hash, nodes: set<Text>, a: Text, m: Routes) {
    forall p :: p in m ==> NewTo(hash, nodes, a, m[p].route)
  }

  ghost predicate AllFrom(hash: Hash, nodes: set<Text>, a: Text, routes: seq<Route>) {
    forall r :: r in routes ==> From(hash, nodes, a, r)
  }

  ghost predicate LogInv(hash: Hash, nodes: set<Text>, a: Text, log: seq<Delta>) {
    forall i :: 0 <= i < |log| ==> AllFrom(hash, nodes, a, log[i].newRoutes)
  }

  ghost predicate JobInv(hash: Hash, nodes: set<Text>, a: Text, job: Job) {
    forall pick :: pick in job.better ==> NewTo(hash, nodes, a, pick.entry.route)
  }

  ghost predicate ManagerInv(hash: Hash, nodes: set<Text>, a: Text, m: Manager) {
    && a in nodes && m.address == a
    && Consistent(m)
    && (forall id :: id in m.incoming ==> AllNewTo(hash, nodes, a, m.incoming[id].routes))
    && AllNewTo(hash, nodes, a, m.local)
    && (forall p :: p in m.forwarding.routes ==> From(hash, nodes, a, m.forwarding.routes[p].route))
    && LogInv(hash, nodes, a, m.log)
  }

  ghost predicate NodeInv(hash: Hash, nodes: set<Text>, a: Text, n: Node) {
    && ManagerInv(hash, nodes, a, n.manager)
    && forall job :: job in n.jobs ==> JobInv(hash, nodes, a, job)
  }

  /** A packet carries the sender's own prefix and routes that have just passed through the sender. */
  ghost predicate PacketInv(hash: Hash, nodes: set<Text>, p: Packet) {
    forall r :: r in p.update.newRoutes ==> r == OwnRoute(p.from) || From(hash, nodes, p.from, r)
  }

  ghost predicate NetInv(hash: Hash, net: Net) {
    && (forall a :: a in net.nodes ==> NodeInv(hash, net.nodes.Keys, a, net.nodes[a]))
    && (forall p :: p in net.packets ==> PacketInv(hash, net.nodes.Keys, p))
  }

  // ---------------------------------------------------------------- each operation keeps it

  lemma AdvertiseAddsAHop(hash: Hash, nodes: set<Text>, a: Text, r: Route)
    requires a in nodes && NewTo(hash, nodes, a, r)
    ensures From(hash, nodes, a, Advertise(hash, a, r))
  {
    var path := [a] + r.path;
    forall i, j | 0 <= i < j < |path| ensures path[i] != path[j] {
      if i > 0 {
        assert path[i] == r.path[i - 1] && path[j] == r.path[j - 1];
      }
    }
  }

  lemma BestRouteIsNew(
    hash: Hash, nodes: set<Text>, m: Manager, local: map<Text, Account>, configured: map<Text, Account>, p: Text)
    requires ManagerInv(hash, nodes, m.address, m)
    ensures var best := BestRoute(local, configured, m.incoming, p);
            best.Some? ==> NewTo(hash, nodes, m.address, best.value.route)
  {
    var best := BestRoute(local, configured, m.incoming, p);
    if best.Some? && best.value in Candidates(m.incoming, p) {
      var id :| id in m.incoming && Resolve(m.incoming[id].routes, p) == Some(best.value);
      assert AllNewTo(hash, nodes, m.address, m.incoming[id].routes);
      var key := LongestKey(m.incoming[id].routes, p, |p|).value;
      assert NewTo(hash, nodes, m.address, m.incoming[id].routes[key].route);
    }
  }

  lemma DecidedRoutesAreNew(
    hash: Hash, nodes: set<Text>, m: Manager,
    local: map<Text, Account>, configured: map<Text, Account>, prefixes: seq<Text>)
    requires ManagerInv(hash, nodes, m.address, m)
    ensures JobInv(hash, nodes, m.address, DecideAll(m, local, configured, prefixes))
  {
    forall pick | pick in DecideAll(m, local, configured, prefixes).better
      ensures NewTo(hash, nodes, m.address, pick.entry.route)
    {
      DecideAllBetter(m, local, configured, prefixes, pick);
      BestRouteIsNew(hash, nodes, m, local, configured, pick.prefix);
    }
  }

  lemma {:induction false} InstallKeepsRoutesGood(
    hash: Hash, nodes: set<Text>, a: Text, t: Tables, picks: seq<Pick>, gone: seq<Text>)
    requires a in nodes
    requires AllNewTo(hash, nodes, a, t.local) && AllFrom(hash, nodes, a, t.newRoutes)
    requires forall p :: p in t.forwarding ==> From(hash, nodes, a, t.forwarding[p].route)
    requires forall pick :: pick in picks ==> NewTo(hash, nodes, a, pick.entry.route)
    ensures var t' := Install(hash, a, t, picks, gone);
      && AllNewTo(hash, nodes, a, t'.local)
      && AllFrom(hash, nodes, a, t'.newRoutes)
      && forall p :: p in t'.forwarding ==> From(hash, nodes, a, t'.forwarding[p].route)
  {
    if picks != [] {
      var n := |picks| - 1;
      InstallKeepsRoutesGood(hash, nodes, a, t, picks[..n], gone);
      AdvertiseAddsAHop(hash, nodes, a, picks[n].entry.route);
    }
  }

  lemma CommitKeepsManagerInv(hash: Hash, nodes: set<Text>, m: Manager, job: Job)
    requires ManagerInv(hash, nodes, m.address, m)
    requires JobInv(hash, nodes, m.address, job)
    ensures ManagerInv(hash, nodes, m.address, Commit(hash, m, job))
  {
    CommitKeepsConsistent(hash, m, job);
    var t0 := Tables(m.local, m.forwarding.routes, []);
    InstallKeepsRoutesGood(hash, nodes, m.address, t0, job.better, job.gone);
  }

  lemma {:induction false} KeptRoutesPass(routes: seq<Route>, keep: Route -> bool, r: Route)
    requires r in KeepRoutes(routes, keep)
    ensures r in routes && keep(r)
  {
    var n := |routes| - 1;
    if r in KeepRoutes(routes[..n], keep) {
      KeptRoutesPass(routes[..n], keep, r);
    }
  }

  lemma {:induction false} AddEntriesComeFrom(m: Routes, account: Account, routes: seq<Route>, p: Text)
    requires p in AddEntries(m, account, routes)
    ensures var e := AddEntries(m, account, routes)[p];
            (p in m && e == m[p]) || e.route in routes
  {
    if routes != [] && p != routes[|routes| - 1].prefix {
      AddEntriesComeFrom(m, account, routes[..|routes| - 1], p);
    }
  }

  lemma ReceiveKeepsManagerInv(hash: Hash, nodes: set<Text>, m: Manager, peer: Account, packet: Packet)
    requires ManagerInv(hash, nodes, m.address, m)
    requires PacketInv(hash, nodes, packet)
    ensures ManagerInv(hash, nodes, m.address, Receive(m, peer, packet.update))
  {
    ReceiveKeepsConsistent(m, peer, packet.update);
    var u := Filter(m.address, packet.update);
    var t := if peer.id in m.incoming then m.incoming[peer.id] else Table(u.tableId, 0, map[]);
    var t' := Accept(t, peer, u).0;
    assert AllNewTo(hash, nodes, m.address, t.routes);
    forall p | p in t'.routes ensures NewTo(hash, nodes, m.address, t'.routes[p].route) {
      if !(p in t.routes && t'.routes[p] == t.routes[p]) {
        AddEntriesComeFrom(t.routes - ToSet(u.withdrawn), peer, u.newRoutes, p);
        KeptRoutesPass(packet.update.newRoutes, (r: Route) => Keeps(m.address, r), t'.routes[p].route);
      }
    }
  }

  lemma SentPacketIsGood(hash: Hash, nodes: set<Text>, m: Manager, to: Text, from: nat, upto: nat)
    requires ManagerInv(hash, nodes, m.address, m)
    ensures PacketInv(hash, nodes, Packet(m.address, to, CreateUpdate(SenderOf(m, 0), from, upto)))
  {
    var s := SenderOf(m, 0);
    forall r | r in CreateUpdate(s, from, upto).newRoutes
      ensures r == OwnRoute(m.address) || From(hash, nodes, m.address, r)
    {
      MergeRoutesComeFromOps(RangeOps(s.address, s.log, from, upto), r);
      RangeRoutesComeFromSender(s, from, upto, r);
      if i :| 0 <= i < |s.log| && r in s.log[i].newRoutes {
        assert AllFrom(hash, nodes, m.address, m.log[i].newRoutes);
      }
    }
  }

  lemma MovesKeepNetInv(hash: Hash, net: Net, move: Move, net': Net)
    requires NetInv(hash, net) && Moves(hash, net, move, net')
    ensures NetInv(hash, net') && net'.nodes.Keys == net.nodes.Keys
  {
    var nodes := net.nodes.Keys;
    assert net'.nodes.Keys == nodes;
    match move
    case Check(a, local, configured, prefixes) =>
      assert NodeInv(hash, nodes, a, net.nodes[a]);
      DecidedRoutesAreNew(hash, nodes, net.nodes[a].manager, local, configured, prefixes);
    case Apply(a, job) =>
      assert NodeInv(hash, nodes, a, net.nodes[a]);
      CommitKeepsManagerInv(hash, nodes, net.nodes[a].manager, job);
    case Send(a, b, from, to) =>
      assert NodeInv(hash, nodes, a, net.nodes[a]);
      SentPacketIsGood(hash, nodes, net.nodes[a].manager, b, from, to);
    case Handle(packet, peer) =>
      assert NodeInv(hash, nodes, packet.to, net.nodes[packet.to]);
      ReceiveKeepsManagerInv(hash, nodes, net.nodes[packet.to].manager, peer, packet);
  }

  lemma {:induction false} RunKeepsNetInv(hash: Hash, nets: seq<Net>, moves: seq<Move>)
    requires NetRun(hash, nets, moves)
    ensures NetInv(hash, nets[|moves|]) && nets[|moves|].nodes.Keys == nets[0].nodes.Keys
  {
    if moves != [] {
      var n := |moves| - 1;
      RunKeepsNetInv(hash, nets[..n + 1], moves[..n]);
      MovesKeepNetInv(hash, nets[n], moves[n], nets[n + 1]);
    }
  }

  // ---------------------------------------------------------------- the theorems

  lemma {:induction false} PathIsShort(path: seq<Text>, nodes: set<Text>)
    requires NoRepeats(path)
    requires forall i :: 0 <= i < |path| ==> path[i] in nodes
    ensures |path| <= |nodes|
  {
    if path != [] {
      var n := |path| - 1;
      PathIsShort(path[..n], nodes - {path[n]});
    }
  }

  /** Loop freedom: in every run, no incoming table of a node holds a route that already passed through
      that node, and no path in it repeats an address or is longer than the number of other nodes. */
  lemma IncomingTablesAreLoopFree(hash: Hash, nets: seq<Net>, moves: seq<Move>, a: Text, id: AccountId, p: Text)
    requires NetRun(hash, nets, moves)
    requires a in nets[|moves|].nodes
    requires id in nets[|moves|].nodes[a].manager.incoming
    requires p in nets[|moves|].nodes[a].manager.incoming[id].routes
    ensures var r := nets[|moves|].nodes[a].manager.incoming[id].routes[p].route;
            && a !in r.path && NoRepeats(r.path)
            && |r.path| < |nets[0].nodes|
            && r.auth == HashedTimes(hash, |r.path|)
  {
    RunKeepsNetInv(hash, nets, moves);
    var net := nets[|moves|];
    var m := net.nodes[a].manager;
    assert NodeInv(hash, net.nodes.Keys, a, net.nodes[a]);
    assert AllNewTo(hash, net.nodes.Keys, a, m.incoming[id].routes);
    var r := m.incoming[id].routes[p].route;
    PathIsShort(r.path, net.nodes.Keys - {a});
  }

  /** Every route in a log or a packet lists each node it passed at most once, its announcer first. */
  lemma AnnouncedPathsAreLoopFree(hash: Hash, nets: seq<Net>, moves: seq<Move>, packet: Packet, r: Route)
    requires NetRun(hash, nets, moves)
    requires packet in nets[|moves|].packets && r in packet.update.newRoutes
    ensures NoRepeats(r.path)
    ensures r.path != [] ==> r.path[0] == packet.from
    ensures |r.path| <= |nets[0].nodes|
  {
    RunKeepsNetInv(hash, nets, moves);
    assert PacketInv(hash, nets[|moves|].nodes.Keys, packet);
    PathIsShort(r.path, nets[|moves|].nodes.Keys);
  }

  lemma LoggedPathsAreLoopFree(hash: Hash, nets: seq<Net>, moves: seq<Move>, a: Text, i: nat, r: Route)
    requires NetRun(hash, nets, moves)
    requires a in nets[|moves|].nodes
    requires i < |nets[|moves|].nodes[a].manager.log| && r in nets[|moves|].nodes[a].manager.log[i].newRoutes
    ensures NoRepeats(r.path) && r.path != [] && r.path[0] == a
    ensures |r.path| <= |nets[0].nodes|
  {
    RunKeepsNetInv(hash, nets, moves);
    assert NodeInv(hash, nets[|moves|].nodes.Keys, a, nets[|moves|].nodes[a]);
    assert AllFrom(hash, nets[|moves|].nodes.Keys, a, nets[|moves|].nodes[a].manager.log[i].newRoutes);
    PathIsShort(r.path, nets[|moves|].nodes.Keys);
  }

  /** In every reachable state the forwarding epoch is the length of the log and every forwarded prefix
      is one the node uses itself. */
  lemma EveryNodeIsConsistent(hash: Hash, nets: seq<Net>, moves: seq<Move>, a: Text)
    requires NetRun(hash, nets, moves)
    requires a in nets[|moves|].nodes
    ensures var m := nets[|moves|].nodes[a].manager;
            m.forwarding.epoch == |m.log| && m.forwarding.routes.Keys <= m.local.Keys
  {
    RunKeepsNetInv(hash, nets, moves);
    assert NodeInv(hash, nets[|moves|].nodes.Keys, a, nets[|moves|].nodes[a]);
  }

  // ---------------------------------------------------------------- what packets say

  /** A packet says who sent it and which table it is about, and carries what the sender's log said about
      its range of epochs when it was sent. */
  ghost predicate PacketTells(net: Net, packet: Packet) {
    && packet.from in net.nodes
    && var m, u := net.nodes[packet.from].manager, packet.update;
       && u.speaker == packet.from && u.tableId == m.forwarding.id && u.holdDownTime == 30000
       && u.currentEpoch <= |m.log|
       && Delta(u.newRoutes, u.withdrawn)
          == Merge(RangeOps(packet.from, m.log[..u.currentEpoch], u.fromEpoch, u.toEpoch))
  }

  ghost predicate PacketsTell(net: Net) {
    && (forall a :: a in net.nodes ==> net.nodes[a].manager.address == a)
    && forall packet :: packet in net.packets ==> PacketTells(net, packet)
  }

  lemma MoveKeepsPacketsTelling(hash: Hash, net: Net, move: Move, net': Net)
    requires PacketsTell(net) && Moves(hash, net, move, net')
    ensures PacketsTell(net')
  {
    forall packet | packet in net'.packets ensures PacketTells(net', packet) {
      if packet in net.packets {
        assert PacketTells(net, packet);
        var m, m' := net.nodes[packet.from].manager, net'.nodes[packet.from].manager;
        assert |m.log| <= |m'.log| && m'.log[..|m.log|] == m.log && m'.forwarding.id == m.forwarding.id;
        assert m'.log[..packet.update.currentEpoch] == m.log[..packet.update.currentEpoch];
      } else {
        var m := net.nodes[packet.from].manager;
        assert m.log[..|m.log|] == m.log;
      }
    }
  }

  /** Every packet of every run tells the truth about its sender. */
  lemma {:induction false} PacketsTellTheLog(hash: Hash, nets: seq<Net>, moves: seq<Move>)
    requires NetRun(hash, nets, moves)
    ensures PacketsTell(nets[|moves|])
  {
    if moves != [] {
      var n := |moves| - 1;
      PacketsTellTheLog(hash, nets[..n + 1], moves[..n]);
      MoveKeepsPacketsTelling(hash, nets[n], moves[n], nets[n + 1]);
    }
  }

  // ---------------------------------------------------------------- logs and tables

  /** Every route that is forwarded in the run is announced under the prefix it is stored under. */
  ghost predicate AlignedRun(hash: Hash, nets: seq<Net>, moves: seq<Move>)
    requires NetRun(hash, nets, moves)
  {
    forall i :: 0 <= i < |moves| ==> AlignedMove(hash, nets[i], moves[i])
  }

  ghost predicate AlignedMove(hash: Hash, net: Net, move: Move) {
    move.Apply? && move.at in net.nodes ==> Aligned(hash, net.nodes[move.at].manager, move.job)
  }

  ghost predicate LogsAreTables(net: Net) {
    forall a :: a in net.nodes ==> LogIsTable(net.nodes[a].manager)
  }

  ghost predicate JobsAreOneEach(net: Net) {
    forall a, job :: a in net.nodes && job in net.nodes[a].jobs ==> OneEntryEach(job.better)
  }

  lemma MovesKeepJobsOneEach(hash: Hash, net: Net, move: Move, net': Net)
    requires JobsAreOneEach(net) && Moves(hash, net, move, net')
    ensures JobsAreOneEach(net')
  {
    if move.Check? {
      DecidedPicksAreOneEach(net.nodes[move.at].manager, move.local, move.configured, move.prefixes);
    }
  }

  lemma {:induction false} RunKeepsJobsOneEach(hash: Hash, nets: seq<Net>, moves: seq<Move>)
    requires NetRun(hash, nets, moves)
    ensures JobsAreOneEach(nets[|moves|])
  {
    if moves != [] {
      var n := |moves| - 1;
      RunKeepsJobsOneEach(hash, nets[..n + 1], moves[..n]);
      MovesKeepJobsOneEach(hash, nets[n], moves[n], nets[n + 1]);
    }
  }

  lemma MoveKeepsLogsIffAligned(hash: Hash, net: Net, move: Move, net': Net)
    requires LogsAreTables(net) && JobsAreOneEach(net) && Moves(hash, net, move, net')
    ensures LogsAreTables(net') <==> AlignedMove(hash, net, move)
  {
    forall a | a in net.nodes && !(move.Apply? && move.at == a) ensures LogIsTable(net'.nodes[a].manager) {
      assert LogIsTable(net.nodes[a].manager);
    }
    if move.Apply? {
      var m := net.nodes[move.at].manager;
      assert LogIsTable(m);
      LogStaysTableIffAligned(hash, m, move.job);
      assert net'.nodes[move.at].manager == Commit(hash, m, move.job);
    }
  }

  lemma AlignedRunSnoc(hash: Hash, nets: seq<Net>, moves: seq<Move>, n: nat)
    requires NetRun(hash, nets, moves) && |moves| == n + 1 && NetRun(hash, nets[..n + 1], moves[..n])
    ensures AlignedRun(hash, nets, moves)
       <==> AlignedRun(hash, nets[..n + 1], moves[..n]) && AlignedMove(hash, nets[n], moves[n])
  {
    assert forall i :: 0 <= i <= n ==> nets[..n + 1][i] == nets[i];
    assert forall i :: 0 <= i < n ==> moves[..n][i] == moves[i];
  }

  /** In a run every log replays to its forwarding table at every moment if and only if every route
      that is forwarded is announced under the prefix it is stored under. */
  lemma {:induction false} LogsReplayIffAligned(hash: Hash, nets: seq<Net>, moves: seq<Move>)
    requires NetRun(hash, nets, moves)
    ensures (forall i :: 0 <= i <= |moves| ==> LogsAreTables(nets[i])) <==> AlignedRun(hash, nets, moves)
  {
    if moves == [] {
      StartLogsAreTables(nets[0]);
    } else {
      var n := |moves| - 1;
      var nets1, moves1 := nets[..n + 1], moves[..n];
      LogsReplayIffAligned(hash, nets1, moves1);
      assert forall i :: 0 <= i <= n ==> nets1[i] == nets[i];
      RunKeepsJobsOneEach(hash, nets1, moves1);
      AlignedRunSnoc(hash, nets, moves, n);
      if LogsAreTables(nets[n]) {
        MoveKeepsLogsIffAligned(hash, nets[n], moves[n], nets[n + 1]);
      }
    }
  }

  lemma StartLogsAreTables(net: Net)
    requires Start(net)
    ensures LogsAreTables(net)
  {
    assert RoutesOf(map[]) == map[];
  }

  /** So in an aligned run the forwarding table of every node is exactly the replay of its log. */
  lemma EveryLogReplaysToItsTable(hash: Hash, nets: seq<Net>, moves: seq<Move>, a: Text)
    requires NetRun(hash, nets, moves) && AlignedRun(hash, nets, moves)
    requires a in nets[|moves|].nodes
    ensures LogIsTable(nets[|moves|].nodes[a].manager)
  {
    LogsReplayIffAligned(hash, nets, moves);
    assert LogsAreTables(nets[|moves|]);
  }

  // ---------------------------------------------------------------- what peers learn is the forwarding table

  /** The forwarding table, and our own prefix unless the log has named it. */
  function AnnouncedView(m: Manager): View {
    if LastOp(LogOps(m.log), m.address).None? then RoutesOf(m.forwarding.routes)[m.address := OwnRoute(m.address)]
    else RoutesOf(m.forwarding.routes)
  }

  /** The view a manager's peers are brought to is its forwarding table and its own prefix. */
  lemma PeersSeeTheForwardingTable(m: Manager, lastSent: nat)
    requires LogIsTable(m)
    ensures ViewAt(SenderOf(m, lastSent), |m.log|) == AnnouncedView(m)
  {
    var s, ops := SenderOf(m, lastSent), LogOps(m.log);
    var view := ViewAt(s, |m.log|);
    forall p ensures Lookup(view, p) == Lookup(AnnouncedView(m), p) {
      WholeRangeOps(m.address, m.log, |m.log|);
      assert Range(m.log, 0, |m.log|) == m.log;
      LastOpConcat(RangeOps(m.address, m.log, 0, 0), ops, p);
      ViewLookup(s, |m.log|, p);
      ReplayAt(map[], ops, p);
      assert RangeOps(m.address, m.log, 0, 0) == [Add(OwnRoute(m.address))];
    }
    SameLookupsSameView(view, AnnouncedView(m));
  }

  /** One round trip with a node of an aligned run gives its peer the node's real forwarding table: all
      of it and nothing else if the peer's filter keeps every route of it, and only then. */
  lemma OneRoundTripGivesTheForwardingTable(
    hash: Hash, nets: seq<Net>, moves: seq<Move>, a: Text,
    worlds: seq<World>, steps: seq<Step>, control: ControlRequest, lastSent: nat)
    requires NetRun(hash, nets, moves) && AlignedRun(hash, nets, moves) && a in nets[|moves|].nodes
    requires Run(worlds, steps) && control in worlds[|steps|].controls
    requires worlds[|steps|].sender == SenderOf(nets[|moves|].nodes[a].manager, lastSent)
    ensures var w := worlds[|steps|];
            var view := AnnouncedView(nets[|moves|].nodes[a].manager);
            var routes := Deliver(w.me, w.table, w.peer, Reply(w.sender, control)).0.routes;
            && (routes == Tag(w.peer, view) <==> AllKept(w.me, view))
            && (forall p :: p !in view || Keeps(w.me, view[p]) ==> Lookup(RoutesOf(routes), p) == Lookup(view, p))
  {
    var w := worlds[|steps|];
    var m := nets[|moves|].nodes[a].manager;
    EveryLogReplaysToItsTable(hash, nets, moves, a);
    PeersSeeTheForwardingTable(m, lastSent);
    OneRoundTripResynchronises(worlds, steps, control);
    var routes := Deliver(w.me, w.table, w.peer, Reply(w.sender, control)).0.routes;
    var view := AnnouncedView(m);
    forall p | p !in view || Keeps(w.me, view[p]) ensures Lookup(RoutesOf(routes), p) == Lookup(view, p) {
      assert Shows(w.sender, w.me, w.peer, Epoch(w.sender), routes, p);
    }
  }
}
