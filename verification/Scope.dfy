/** What a node lets in from its peers and what it tells them, in every run of a network: nobody can
    announce a node's own addresses to it, and a node only announces what lies in its scheme. */
module Scope {
  import opened Text
  import opened CcpTypes
  import opened RouteLog
  import opened RoutingTables
  import opened Sync
  import opened RouteManagers
  import opened Network

  /** A route node `a` may announce: below its scheme, and of the routes that start at itself only
      its own address. */
  predicate Announceable(a: Text, r: Route) {
    && Scheme(a) <= r.prefix && r.prefix != Scheme(a)
    && (r.path == [a] && a <= r.prefix ==> r.prefix == a)
  }

  ghost predicate TableScope(a: Text, m: Routes) {
    forall p :: p in m ==> Learnable(a, p) && m[p].route.prefix == p
  }

  ghost predicate AllAnnounceable(a: Text, routes: seq<Route>) {
    forall r :: r in routes ==> Announceable(a, r)
  }

  ghost predicate LogScope(a: Text, log: seq<Delta>) {
    forall i :: 0 <= i < |log| ==> AllAnnounceable(a, log[i].newRoutes)
  }

  ghost predicate ManagerScope(a: Text, m: Manager) {
    && m.address == a
    && (forall id :: id in m.incoming ==> TableScope(a, m.incoming[id].routes))
    && LogScope(a, m.log)
  }

  ghost predicate PacketScope(p: Packet) {
    forall r :: r in p.update.newRoutes ==> r == OwnRoute(p.from) || Announceable(p.from, r)
  }

  ghost predicate NetScope(net: Net) {
    && (forall a :: a in net.nodes ==> ManagerScope(a, net.nodes[a].manager))
    && (forall p :: p in net.packets ==> PacketScope(p))
  }

  // ---------------------------------------------------------------- each operation keeps it

  lemma AdvertisedIsAnnounceable(hash: Hash, a: Text, pick: Pick, gone: seq<Text>)
    requires MayAdvertise(a, pick, gone)
    ensures Announceable(a, Advertise(hash, a, pick.entry.route))
  {
    var path := pick.entry.route.path;
    if [a] + path == [a] {
      assert |[a] + path| == 1 + |path|;
    }
  }

  lemma {:induction false} InstallAnnounces(hash: Hash, a: Text, t: Tables, picks: seq<Pick>, gone: seq<Text>)
    requires AllAnnounceable(a, t.newRoutes)
    ensures AllAnnounceable(a, Install(hash, a, t, picks, gone).newRoutes)
  {
    if picks != [] {
      var n := |picks| - 1;
      InstallAnnounces(hash, a, t, picks[..n], gone);
      if MayAdvertise(a, picks[n], gone) {
        AdvertisedIsAnnounceable(hash, a, picks[n], gone);
      }
    }
  }

  lemma CommitKeepsScope(hash: Hash, m: Manager, job: Job)
    requires ManagerScope(m.address, m)
    ensures ManagerScope(m.address, Commit(hash, m, job))
  {
    InstallAnnounces(hash, m.address, Tables(m.local, m.forwarding.routes, []), job.better, job.gone);
  }

  lemma {:induction false} AddEntriesKeepsScope(a: Text, m: Routes, account: Account, routes: seq<Route>)
    requires TableScope(a, m) && forall r :: r in routes ==> Learnable(a, r.prefix)
    ensures TableScope(a, AddEntries(m, account, routes))
  {
    if routes != [] {
      AddEntriesKeepsScope(a, m, account, routes[..|routes| - 1]);
    }
  }

  lemma ReceiveKeepsScope(m: Manager, peer: Account, update: UpdateRequest)
    requires ManagerScope(m.address, m)
    ensures ManagerScope(m.address, Receive(m, peer, update))
  {
    var u := Filter(m.address, update);
    var t := if peer.id in m.incoming then m.incoming[peer.id] else Table(u.tableId, 0, map[]);
    forall r | r in u.newRoutes ensures Learnable(m.address, r.prefix) {
      KeptRoutesPass(update.newRoutes, (r: Route) => Keeps(m.address, r), r);
    }
    assert TableScope(m.address, t.routes);
    AddEntriesKeepsScope(m.address, t.routes - ToSet(u.withdrawn), peer, u.newRoutes);
  }

  lemma SentPacketIsScoped(m: Manager, to: Text, from: nat, upto: nat)
    requires ManagerScope(m.address, m)
    ensures PacketScope(Packet(m.address, to, CreateUpdate(SenderOf(m, 0), from, upto)))
  {
    var s := SenderOf(m, 0);
    forall r | r in CreateUpdate(s, from, upto).newRoutes
      ensures r == OwnRoute(m.address) || Announceable(m.address, r)
    {
      MergeRoutesComeFromOps(RangeOps(s.address, s.log, from, upto), r);
      RangeRoutesComeFromSender(s, from, upto, r);
      if i :| 0 <= i < |s.log| && r in s.log[i].newRoutes {
        assert AllAnnounceable(m.address, m.log[i].newRoutes);
      }
    }
  }

  lemma MovesKeepScope(hash: Hash, net: Net, move: Move, net': Net)
    requires NetScope(net) && Moves(hash, net, move, net')
    ensures NetScope(net')
  {
    match move
    case Check(a, local, configured, prefixes) =>
      assert ManagerScope(a, net.nodes[a].manager);
    case Apply(a, job) =>
      assert ManagerScope(a, net.nodes[a].manager);
      CommitKeepsScope(hash, net.nodes[a].manager, job);
    case Send(a, b, from, to) =>
      assert ManagerScope(a, net.nodes[a].manager);
      SentPacketIsScoped(net.nodes[a].manager, b, from, to);
    case Handle(packet, peer) =>
      assert ManagerScope(packet.to, net.nodes[packet.to].manager);
      ReceiveKeepsScope(net.nodes[packet.to].manager, peer, packet.update);
  }

  lemma {:induction false} RunKeepsScope(hash: Hash, nets: seq<Net>, moves: seq<Move>)
    requires NetRun(hash, nets, moves)
    ensures NetScope(nets[|moves|])
  {
    if moves != [] {
      var n := |moves| - 1;
      RunKeepsScope(hash, nets[..n + 1], moves[..n]);
      MovesKeepScope(hash, nets[n], moves[n], nets[n + 1]);
    }
  }

  // ---------------------------------------------------------------- the theorems

  /** Nobody can announce a node's own addresses to it: whatever a peer's table says about an address
      at or below the node's own, it says it for a strictly shorter prefix, inside the scheme. */
  lemma OwnAddressesAreNotLearned(hash: Hash, nets: seq<Net>, moves: seq<Move>, a: Text, id: AccountId, q: Text)
    requires NetRun(hash, nets, moves)
    requires a in nets[|moves|].nodes && id in nets[|moves|].nodes[a].manager.incoming && a <= q
    ensures var found := Resolve(nets[|moves|].nodes[a].manager.incoming[id].routes, q);
            found.Some? ==> found.value.route.prefix < a && Scheme(a) < found.value.route.prefix
  {
    RunKeepsScope(hash, nets, moves);
    var m := nets[|moves|].nodes[a].manager;
    assert ManagerScope(a, m);
    var routes := m.incoming[id].routes;
    assert TableScope(a, routes);
    var key := LongestKey(routes, q, |q|);
    if key.Some? {
      PrefixesOfOne(key.value, a, q);
    }
  }

  lemma PrefixesOfOne(p: Text, a: Text, q: Text)
    requires p <= q && a <= q && !(a <= p)
    ensures p < a
  {
  }

  /** Every route a node ever logs or sends, its own prefix aside, lies inside its scheme without being
      the whole scheme, and a route that starts at the node itself is for its exact address or for
      something outside its own address space. */
  lemma AnnouncementsStayInScope(hash: Hash, nets: seq<Net>, moves: seq<Move>, packet: Packet, r: Route)
    requires NetRun(hash, nets, moves)
    requires packet in nets[|moves|].packets && r in packet.update.newRoutes && r != OwnRoute(packet.from)
    ensures Scheme(packet.from) < r.prefix
    ensures r.path == [packet.from] && packet.from <= r.prefix ==> r.prefix == packet.from
  {
    RunKeepsScope(hash, nets, moves);
    assert PacketScope(packet);
  }

  // ---------------------------------------------------------------- one epoch does not contradict itself

  lemma {:induction false} InstallSkipsGone(hash: Hash, a: Text, t: Tables, picks: seq<Pick>, gone: seq<Text>)
    requires AlignedPicks(hash, a, t, picks, gone) && forall r :: r in t.newRoutes ==> r.prefix !in gone
    ensures forall r :: r in Install(hash, a, t, picks, gone).newRoutes ==> r.prefix !in gone
  {
    if picks != [] {
      var n := |picks| - 1;
      InstallSkipsGone(hash, a, t, picks[..n], gone);
    }
  }

  /** When advertised prefixes equal their keys, no log entry both announces and withdraws a prefix. */
  lemma {:induction false} EpochsAreDisjoint(hash: Hash, nets: seq<Net>, moves: seq<Move>, a: Text, i: nat)
    requires NetRun(hash, nets, moves) && AlignedRun(hash, nets, moves)
    requires a in nets[|moves|].nodes && i < |nets[|moves|].nodes[a].manager.log|
    ensures var d := nets[|moves|].nodes[a].manager.log[i];
            Prefixes(d.newRoutes) !! ToSet(d.withdrawn)
  {
    if moves != [] {
      var n := |moves| - 1;
      var before := nets[n].nodes[a].manager;
      assert forall i :: 0 <= i < n ==> nets[..n + 1][i] == nets[i] && moves[..n][i] == moves[i];
      if i < |before.log| {
        EpochsAreDisjoint(hash, nets[..n + 1], moves[..n], a, i);
      } else {
        var job := moves[n].job;
        RunKeepsScope(hash, nets[..n + 1], moves[..n]);
        assert ManagerScope(a, before);
        InstallSkipsGone(hash, a, Tables(before.local, before.forwarding.routes, []), job.better, job.gone);
      }
    }
  }
}
