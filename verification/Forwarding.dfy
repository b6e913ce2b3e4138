/** What a commit does to the forwarding table and the log, told from the picks alone: which moves of
    a route reach the forwarding table, and when it follows the local table. */
module Forwarding {
  import opened Options
  import opened Text
  import opened CcpTypes
  import opened RouteLog
  import opened RoutingTables
  import opened RouteManagers
  import opened Network

  /** A route peers may be told about: inside our scheme and not the scheme itself; and if it lies at or
      below our address, then it is our address, or it was learned from someone. */
  predicate Tellable(address: Text, r: Route) {
    && Scheme(address) <= r.prefix && r.prefix != Scheme(address)
    && (address <= r.prefix ==> r.prefix == address || r.path != [])
  }

  predicate LeadsTo(routes: Routes, p: Text, id: AccountId) {
    var found := Resolve(routes, p);
    found.Some? && found.value.account.id == id
  }

  /** The route as a peer hears it from us. */
  function OneHopLonger(hash: Hash, address: Text, r: Route): Route {
    Route(r.prefix, [address] + r.path, hash(r.auth), r.props)
  }

  function At(routes: Routes, p: Text): Option<Entry> {
    if p in routes then Some(routes[p]) else None
  }

  // ---------------------------------------------------------------- setting keys

  lemma ResolveThrough(routes: Routes, p: Text, key: Text)
    requires IsLongestMatch(routes, p, key)
    ensures Resolve(routes, p) == Some(routes[key])
  {
    ResolveIsLongestMatch(routes, p);
  }

  /** Two tables with the same entries at the prefixes of `p` resolve `p` alike. */
  lemma {:induction false} SameBelow(a: Routes, b: Routes, p: Text, n: nat)
    requires n <= |p|
    requires forall q :: q <= p ==> At(a, q) == At(b, q)
    ensures LongestKey(a, p, n) == LongestKey(b, p, n)
  {
    assert p[..n] <= p;
    assert At(a, p[..n]) == At(b, p[..n]);
    if n > 0 {
      SameBelow(a, b, p, n - 1);
    }
  }

  lemma SameBelowResolves(a: Routes, b: Routes, p: Text)
    requires forall q :: q <= p ==> At(a, q) == At(b, q)
    ensures Resolve(a, p) == Resolve(b, p)
  {
    SameBelow(a, b, p, |p|);
    var key := LongestKey(a, p, |p|);
    if key.Some? {
      assert At(a, key.value) == At(b, key.value);
    }
  }

  lemma OwnKeyResolves(routes: Routes, p: Text)
    requires p in routes
    ensures Resolve(routes, p) == Some(routes[p])
  {
    assert p[..|p|] == p;
  }

  // ---------------------------------------------------------------- one pick at a time

  /** A prefix that is not picked keeps its forwarding entry until the withdrawals. */
  lemma {:induction false} UnpickedStays(
    hash: Hash, address: Text, t: Tables, picks: seq<Pick>, gone: seq<Text>, q: Text)
    requires forall pick :: pick in picks ==> pick.prefix != q
    ensures At(Install(hash, address, t, picks, gone).forwarding, q) == At(t.forwarding, q)
  {
    if picks != [] {
      var n := |picks| - 1;
      assert picks[n] in picks;
      UnpickedStays(hash, address, t, picks[..n], gone, q);
    }
  }

  /** What stands under a picked prefix after the picks, if no other picked prefix lies below it. */
  ghost predicate Settled(hash: Hash, address: Text, t: Tables, t': Tables, pick: Pick, gone: seq<Text>) {
    var p, entry := pick.prefix, pick.entry;
    if !Tellable(address, entry.route) || p in gone || LeadsTo(t.forwarding, p, entry.account.id) then
      At(t'.forwarding, p) == At(t.forwarding, p)
    else
      var told := OneHopLonger(hash, address, entry.route);
      At(t'.forwarding, p) == Some(Entry(entry.account, told)) && told in t'.newRoutes
  }

  lemma InstallOneSettles(hash: Hash, address: Text, t: Tables, pick: Pick, gone: seq<Text>)
    ensures Settled(hash, address, t, InstallOne(hash, address, t, pick, gone), pick, gone)
  {
  }

  predicate NoneBelow(picks: seq<Pick>, p: Text) {
    forall other :: other in picks && other.prefix <= p ==> other.prefix == p
  }

  /** A pick for another prefix leaves things as they are. */
  lemma OtherPickKeepsSettled(
    hash: Hash, address: Text, t: Tables, t1: Tables, pick: Pick, other: Pick, gone: seq<Text>)
    requires Settled(hash, address, t, t1, pick, gone) && other.prefix != pick.prefix
    ensures Settled(hash, address, t, InstallOne(hash, address, t1, other, gone), pick, gone)
  {
  }

  /** What a pick settles depends on the entries at and below its prefix. */
  lemma SettlesAlike(hash: Hash, address: Text, t: Tables, t1: Tables, t2: Tables, pick: Pick, gone: seq<Text>)
    requires Settled(hash, address, t1, t2, pick, gone)
    requires forall q :: q <= pick.prefix ==> At(t.forwarding, q) == At(t1.forwarding, q)
    ensures Settled(hash, address, t, t2, pick, gone)
  {
    SameBelowResolves(t.forwarding, t1.forwarding, pick.prefix);
    assert At(t.forwarding, pick.prefix) == At(t1.forwarding, pick.prefix);
  }

  lemma AgainKeepsSettled(hash: Hash, address: Text, t: Tables, t1: Tables, pick: Pick, gone: seq<Text>)
    requires Settled(hash, address, t, t1, pick, gone)
    requires forall q :: q < pick.prefix ==> At(t1.forwarding, q) == At(t.forwarding, q)
    ensures Settled(hash, address, t, InstallOne(hash, address, t1, pick, gone), pick, gone)
  {
    AgainChangesNothing(hash, address, t, t1, pick, gone);
  }

  /** The first time a prefix is picked. */
  lemma FirstPickSettles(hash: Hash, address: Text, t: Tables, picks: seq<Pick>, gone: seq<Text>, pick: Pick)
    requires forall other :: other in picks ==> !(other.prefix <= pick.prefix)
    ensures var t1 := Install(hash, address, t, picks, gone);
            Settled(hash, address, t, InstallOne(hash, address, t1, pick, gone), pick, gone)
  {
    var t1 := Install(hash, address, t, picks, gone);
    forall q | q <= pick.prefix ensures At(t.forwarding, q) == At(t1.forwarding, q) {
      UnpickedStays(hash, address, t, picks, gone, q);
    }
    InstallOneSettles(hash, address, t1, pick, gone);
    SettlesAlike(hash, address, t, t1, InstallOne(hash, address, t1, pick, gone), pick, gone);
  }

  /** What holds after the first `k` picks and is kept by each later one holds after all of them. */
  lemma {:induction false} InstallKeeps(
    hash: Hash, address: Text, t: Tables, picks: seq<Pick>, gone: seq<Text>, k: nat, ok: Tables -> bool)
    requires k <= |picks| && ok(Install(hash, address, t, picks[..k], gone))
    requires forall i :: k <= i < |picks| && ok(Install(hash, address, t, picks[..i], gone)) ==>
               ok(InstallOne(hash, address, Install(hash, address, t, picks[..i], gone), picks[i], gone))
    ensures ok(Install(hash, address, t, picks, gone))
    decreases |picks| - k
  {
    if k == |picks| {
      assert picks[..k] == picks;
    } else {
      assert picks[..k + 1][..k] == picks[..k] && picks[..k + 1][k] == picks[k];
      InstallKeeps(hash, address, t, picks, gone, k + 1, ok);
    }
  }

  lemma LaterPickKeepsSettled(
    hash: Hash, address: Text, t: Tables, picks: seq<Pick>, gone: seq<Text>, pick: Pick, i: nat)
    requires OneEntryEach(picks) && pick in picks && NoneBelow(picks, pick.prefix) && i < |picks|
    requires Settled(hash, address, t, Install(hash, address, t, picks[..i], gone), pick, gone)
    ensures var t1 := Install(hash, address, t, picks[..i], gone);
            Settled(hash, address, t, InstallOne(hash, address, t1, picks[i], gone), pick, gone)
  {
    assert picks[i] in picks && forall x :: x in picks[..i] ==> x in picks;
    BelowStays(hash, address, t, picks[..i], gone, pick.prefix);
    NextPickKeepsSettled(hash, address, t, Install(hash, address, t, picks[..i], gone), pick, picks[i], gone);
  }

  lemma {:induction false} FirstIndex(picks: seq<Pick>, pick: Pick) returns (k: nat)
    requires pick in picks
    ensures k < |picks| && picks[k] == pick && pick !in picks[..k]
  {
    var n := |picks| - 1;
    if pick in picks[..n] {
      k := FirstIndex(picks[..n], pick);
      assert picks[..n][..k] == picks[..k];
    } else {
      k := n;
    }
  }

  lemma InstallSettles(hash: Hash, address: Text, t: Tables, picks: seq<Pick>, gone: seq<Text>, pick: Pick)
    requires OneEntryEach(picks) && pick in picks && NoneBelow(picks, pick.prefix)
    ensures Settled(hash, address, t, Install(hash, address, t, picks, gone), pick, gone)
  {
    var ok := (u: Tables) => Settled(hash, address, t, u, pick, gone);
    var k := FirstIndex(picks, pick);
    assert picks[..k + 1][..k] == picks[..k] && picks[..k + 1][k] == pick;
    assert forall x :: x in picks[..k] ==> x in picks;
    FirstPick(picks[..k], pick, picks);
    FirstPickSettles(hash, address, t, picks[..k], gone, pick);
    assert ok(Install(hash, address, t, picks[..k + 1], gone));
    forall i | k + 1 <= i < |picks| && ok(Install(hash, address, t, picks[..i], gone))
      ensures ok(InstallOne(hash, address, Install(hash, address, t, picks[..i], gone), picks[i], gone))
    {
      LaterPickKeepsSettled(hash, address, t, picks, gone, pick, i);
    }
    InstallKeeps(hash, address, t, picks, gone, k + 1, ok);
    assert ok(Install(hash, address, t, picks, gone));
  }

  lemma NextPickKeepsSettled(
    hash: Hash, address: Text, t: Tables, t1: Tables, pick: Pick, next: Pick, gone: seq<Text>)
    requires Settled(hash, address, t, t1, pick, gone) && (next.prefix == pick.prefix ==> next == pick)
    requires forall q :: q < pick.prefix ==> At(t1.forwarding, q) == At(t.forwarding, q)
    ensures Settled(hash, address, t, InstallOne(hash, address, t1, next, gone), pick, gone)
  {
    if next.prefix == pick.prefix {
      AgainKeepsSettled(hash, address, t, t1, pick, gone);
    } else {
      OtherPickKeepsSettled(hash, address, t, t1, pick, next, gone);
    }
  }

  lemma FirstPick(before: seq<Pick>, pick: Pick, picks: seq<Pick>)
    requires OneEntryEach(picks) && NoneBelow(picks, pick.prefix) && pick in picks && pick !in before
    requires forall x :: x in before ==> x in picks
    ensures forall other :: other in before ==> !(other.prefix <= pick.prefix)
  {
  }

  lemma BelowStays(hash: Hash, address: Text, t: Tables, picks: seq<Pick>, gone: seq<Text>, p: Text)
    requires NoneBelow(picks, p)
    ensures forall q :: q < p ==> At(Install(hash, address, t, picks, gone).forwarding, q) == At(t.forwarding, q)
  {
    forall q | q < p ensures At(Install(hash, address, t, picks, gone).forwarding, q) == At(t.forwarding, q) {
      UnpickedStays(hash, address, t, picks, gone, q);
    }
  }

  /** Installing the same pick again changes nothing. */
  lemma AgainChangesNothing(hash: Hash, address: Text, t: Tables, t1: Tables, pick: Pick, gone: seq<Text>)
    requires Settled(hash, address, t, t1, pick, gone)
    requires forall q :: q < pick.prefix ==> At(t1.forwarding, q) == At(t.forwarding, q)
    ensures InstallOne(hash, address, t1, pick, gone).forwarding == t1.forwarding
    ensures InstallOne(hash, address, t1, pick, gone).newRoutes == t1.newRoutes
  {
    if LeadsTo(t.forwarding, pick.prefix, pick.entry.account.id) {
      forall q | q <= pick.prefix ensures At(t.forwarding, q) == At(t1.forwarding, q) {
        assert q == pick.prefix || q < pick.prefix;
      }
      SameBelowResolves(t.forwarding, t1.forwarding, pick.prefix);
    }
    if pick.prefix in t1.forwarding {
      OwnKeyResolves(t1.forwarding, pick.prefix);
    }
  }

  /** What a commit does for a picked prefix that has no other picked prefix below it. If peers may be
      told, it is not withdrawn at the same time, and it led elsewhere before, then the forwarding table
      now holds the picked account with the route one hop longer, and exactly that route is announced
      in the new log entry. Otherwise its entry stays, or is withdrawn. */
  lemma CommitForwardsThePick(hash: Hash, m: Manager, job: Job, pick: Pick)
    requires OneEntryEach(job.better) && pick in job.better && NoneBelow(job.better, pick.prefix)
    ensures var m' := Commit(hash, m, job);
            var p, account, route := pick.prefix, pick.entry.account, pick.entry.route;
            var told := Route(route.prefix, [m.address] + route.path, hash(route.auth), route.props);
            && |m'.log| == |m.log| + 1 && m'.log[..|m.log|] == m.log && m'.log[|m.log|].withdrawn == job.gone
            && (p in job.gone ==> p !in m'.forwarding.routes)
            && (p !in job.gone && Tellable(m.address, route) && !LeadsTo(m.forwarding.routes, p, account.id) ==>
                  && p in m'.forwarding.routes && m'.forwarding.routes[p] == Entry(account, told)
                  && told in m'.log[|m.log|].newRoutes)
            && (p !in job.gone && (!Tellable(m.address, route) || LeadsTo(m.forwarding.routes, p, account.id)) ==>
                  At(m'.forwarding.routes, p) == At(m.forwarding.routes, p))
  {
    InstallSettles(hash, m.address, Tables(m.local, m.forwarding.routes, []), job.better, job.gone, pick);
  }

  // ---------------------------------------------------------------- nested picks

  lemma StillLeads(routes: Routes, p: Text, id: AccountId, q: Text, e: Entry)
    requires LeadsTo(routes, p, id) && (q <= p ==> e.account.id == id)
    ensures LeadsTo(routes[q := e], p, id)
  {
    var key := LongestKey(routes, p, |p|).value;
    forall x | x in routes && x <= p ensures |x| <= |key| {
      LongestKeyBelow(routes, p, |p|, x);
    }
    var longest := if q <= p && |key| <= |q| then q else key;
    assert q <= p && |q| == |key| ==> q == p[..|q|] == key;
    assert IsLongestMatch(routes[q := e], p, longest);
    ResolveThrough(routes[q := e], p, longest);
  }

  /** Other picks below `p` that peers may be told lead to the same account. */
  ghost predicate Unopposed(address: Text, picks: seq<Pick>, p: Text, id: AccountId) {
    forall other :: other in picks && other.prefix < p && Tellable(address, other.entry.route) ==>
      other.entry.account.id == id
  }

  lemma {:induction false} InstallLeads(
    hash: Hash, address: Text, t: Tables, picks: seq<Pick>, gone: seq<Text>, pick: Pick)
    requires OneEntryEach(picks) && pick in picks && Unopposed(address, picks, pick.prefix, pick.entry.account.id)
    requires Tellable(address, pick.entry.route) && pick.prefix !in gone
    ensures LeadsTo(Install(hash, address, t, picks, gone).forwarding, pick.prefix, pick.entry.account.id)
  {
    var n := |picks| - 1;
    var t1 := Install(hash, address, t, picks[..n], gone);
    var last, p, id := picks[n], pick.prefix, pick.entry.account.id;
    assert last in picks;
    if pick in picks[..n] {
      InstallLeads(hash, address, t, picks[..n], gone, pick);
      var told := OneHopLonger(hash, address, last.entry.route);
      if last.prefix <= p && Tellable(address, last.entry.route) {
        StillLeads(t1.forwarding, p, id, last.prefix, Entry(last.entry.account, told));
      } else if !(last.prefix <= p) {
        StillLeads(t1.forwarding, p, id, last.prefix, Entry(last.entry.account, told));
      }
    } else {
      var t2 := InstallOne(hash, address, t1, pick, gone);
      InstallOneSettles(hash, address, t1, pick, gone);
      if !LeadsTo(t1.forwarding, p, id) {
        OwnKeyResolves(t2.forwarding, p);
      }
    }
  }

  /** After a commit a picked prefix leads to the picked account, nested or not, as long as nothing
      below it is withdrawn or told to lead elsewhere. */
  lemma CommitLeadsToThePick(hash: Hash, m: Manager, job: Job, pick: Pick)
    requires OneEntryEach(job.better) && pick in job.better && Tellable(m.address, pick.entry.route)
    requires Unopposed(m.address, job.better, pick.prefix, pick.entry.account.id)
    requires forall g :: g in job.gone ==> !(g <= pick.prefix)
    ensures LeadsTo(Commit(hash, m, job).forwarding.routes, pick.prefix, pick.entry.account.id)
  {
    var t := Install(hash, m.address, Tables(m.local, m.forwarding.routes, []), job.better, job.gone);
    InstallLeads(hash, m.address, Tables(m.local, m.forwarding.routes, []), job.better, job.gone, pick);
    SameBelowResolves(t.forwarding, t.forwarding - ToSet(job.gone), pick.prefix);
  }

  /** Otherwise it can fail: a prefix picked for the account it already leads to is not stored, and
      then follows a shorter prefix away from that account. */
  lemma OpposedPickIsLost(hash: Hash, m: Manager, long: Pick, short: Pick)
    requires short.prefix < long.prefix && short.prefix in m.forwarding.routes
    requires forall k :: |short.prefix| < k <= |long.prefix| ==> long.prefix[..k] !in m.forwarding.routes
    requires m.forwarding.routes[short.prefix].account.id == long.entry.account.id != short.entry.account.id
    requires Tellable(m.address, short.entry.route)
    ensures LeadsTo(Commit(hash, m, Job([long, short], [])).forwarding.routes, long.prefix, short.entry.account.id)
  {
    var f, p, q := m.forwarding.routes, long.prefix, short.prefix;
    forall x | x in f && x <= p ensures |x| <= |q| {
      assert x == p[..|x|];
    }
    ResolveThrough(f, p, q);
    OwnKeyResolves(f, q);
    var t0 := Tables(m.local, f, []);
    var t1 := InstallOne(hash, m.address, t0, long, []);
    var t2 := InstallOne(hash, m.address, t1, short, []);
    var picks := [long, short];
    assert picks[..1] == [long] && [long][..0] == [];
    assert Install(hash, m.address, t0, [long], []) == t1;
    assert Install(hash, m.address, t0, picks, []) == t2;
    assert t1.forwarding == f;
    forall x | x in t2.forwarding && x <= p ensures |x| <= |q| {
      assert x == p[..|x|];
    }
    ResolveThrough(t2.forwarding, p, q);
    assert t2.forwarding - ToSet([]) == t2.forwarding;
  }

  // ---------------------------------------------------------------- the forwarding table follows the local one

  /** Every forwarded prefix leads to the account that the node itself uses for it. */
  predicate Follows(local: Routes, forwarding: Routes) {
    forall p :: p in forwarding ==> p in local && local[p].account.id == forwarding[p].account.id
  }

  /** Some forwarded prefix is moved to another account by a route that peers may not be told. */
  ghost predicate MovesSilently(m: Manager, job: Job) {
    exists pick :: pick in job.better && pick.prefix !in job.gone && !Tellable(m.address, pick.entry.route)
      && pick.prefix in m.forwarding.routes
      && m.forwarding.routes[pick.prefix].account.id != pick.entry.account.id
  }

  /** The forwarding entry of a picked prefix after the picks. */
  lemma {:induction false} PickedEntry(
    hash: Hash, address: Text, t: Tables, picks: seq<Pick>, gone: seq<Text>, pick: Pick)
    requires OneEntryEach(picks) && pick in picks && pick.prefix !in gone
    ensures var after := At(Install(hash, address, t, picks, gone).forwarding, pick.prefix);
            && (!Tellable(address, pick.entry.route) ==> after == At(t.forwarding, pick.prefix))
            && (Tellable(address, pick.entry.route) && after.Some? ==>
                  after.value.account.id == pick.entry.account.id)
  {
    var n := |picks| - 1;
    var t1 := Install(hash, address, t, picks[..n], gone);
    assert picks[n] in picks;
    if pick in picks[..n] {
      PickedEntry(hash, address, t, picks[..n], gone, pick);
    } else {
      UnpickedStays(hash, address, t, picks[..n], gone, pick.prefix);
    }
    if pick.prefix in t1.forwarding {
      OwnKeyResolves(t1.forwarding, pick.prefix);
    }
  }

  lemma {:induction false} PickedLocally(
    hash: Hash, address: Text, t: Tables, picks: seq<Pick>, gone: seq<Text>, pick: Pick)
    requires OneEntryEach(picks) && pick in picks
    ensures At(Install(hash, address, t, picks, gone).local, pick.prefix) == Some(pick.entry)
  {
    InstallLocal(hash, address, t, picks, gone, pick.prefix);
  }

  /** A commit keeps the forwarding table in step with the local one if and only if it does not move a
      forwarded prefix to another account by a route that peers may not be told. */
  lemma CommitFollowsIff(hash: Hash, m: Manager, job: Job)
    requires Follows(m.local, m.forwarding.routes) && OneEntryEach(job.better)
    ensures var m' := Commit(hash, m, job);
            Follows(m'.local, m'.forwarding.routes) <==> !MovesSilently(m, job)
  {
    var t0 := Tables(m.local, m.forwarding.routes, []);
    var t := Install(hash, m.address, t0, job.better, job.gone);
    if pick :| pick in job.better && pick.prefix !in job.gone && !Tellable(m.address, pick.entry.route)
               && pick.prefix in m.forwarding.routes
               && m.forwarding.routes[pick.prefix].account.id != pick.entry.account.id {
      PickedEntry(hash, m.address, t0, job.better, job.gone, pick);
      PickedLocally(hash, m.address, t0, job.better, job.gone, pick);
      assert pick.prefix in t.forwarding - ToSet(job.gone);
    } else {
      forall p | p in t.forwarding && p !in job.gone
        ensures p in t.local && t.local[p].account.id == t.forwarding[p].account.id
      {
        FollowsAt(hash, m, job, p);
      }
    }
  }

  lemma FollowsAt(hash: Hash, m: Manager, job: Job, p: Text)
    requires Follows(m.local, m.forwarding.routes) && OneEntryEach(job.better) && !MovesSilently(m, job)
    requires p !in job.gone
    ensures var t := Install(hash, m.address, Tables(m.local, m.forwarding.routes, []), job.better, job.gone);
            p in t.forwarding ==> p in t.local && t.local[p].account.id == t.forwarding[p].account.id
  {
    var t0 := Tables(m.local, m.forwarding.routes, []);
    if pick :| pick in job.better && pick.prefix == p {
      PickedEntry(hash, m.address, t0, job.better, job.gone, pick);
      PickedLocally(hash, m.address, t0, job.better, job.gone, pick);
    } else {
      UnpickedStays(hash, m.address, t0, job.better, job.gone, p);
      InstallLocal(hash, m.address, t0, job.better, job.gone, p);
    }
  }

  // ---------------------------------------------------------------- in every run

  ghost predicate AllFollow(net: Net) {
    forall a :: a in net.nodes ==> Follows(net.nodes[a].manager.local, net.nodes[a].manager.forwarding.routes)
  }

  ghost predicate SilentMove(net: Net, move: Move) {
    move.Apply? && move.at in net.nodes && MovesSilently(net.nodes[move.at].manager, move.job)
  }

  lemma MoveFollowsIff(hash: Hash, net: Net, move: Move, net': Net)
    requires AllFollow(net) && JobsAreOneEach(net) && Moves(hash, net, move, net')
    ensures AllFollow(net') <==> !SilentMove(net, move)
  {
    if move.Apply? {
      var m := net.nodes[move.at].manager;
      CommitFollowsIff(hash, m, move.job);
      assert net'.nodes[move.at].manager == Commit(hash, m, move.job);
    }
  }

  lemma JobsAt(hash: Hash, nets: seq<Net>, moves: seq<Move>, j: nat)
    requires NetRun(hash, nets, moves) && j <= |moves|
    ensures JobsAreOneEach(nets[j])
  {
    RunKeepsJobsOneEach(hash, nets[..j + 1], moves[..j]);
  }

  lemma MoveAt(hash: Hash, nets: seq<Net>, moves: seq<Move>, j: nat)
    requires NetRun(hash, nets, moves) && j < |moves| && AllFollow(nets[j])
    ensures AllFollow(nets[j + 1]) <==> !SilentMove(nets[j], moves[j])
  {
    JobsAt(hash, nets, moves, j);
    MoveFollowsIff(hash, nets[j], moves[j], nets[j + 1]);
  }

  /** What holds at first and is lost exactly at a bad step holds always exactly if no step is bad. */
  lemma {:induction false} HoldsUnlessLost(holds: seq<bool>, bad: seq<bool>)
    requires |holds| == |bad| + 1 && holds[0]
    requires forall j :: 0 <= j < |bad| && holds[j] ==> (holds[j + 1] <==> !bad[j])
    ensures (forall i :: 0 <= i < |holds| ==> holds[i]) <==> (forall i :: 0 <= i < |bad| ==> !bad[i])
  {
    if bad != [] {
      var n := |bad| - 1;
      HoldsUnlessLost(holds[..n + 1], bad[..n]);
      assert forall i :: 0 <= i <= n ==> holds[..n + 1][i] == holds[i];
      assert forall i :: 0 <= i < n ==> bad[..n][i] == bad[i];
      assert holds[n] ==> (holds[n + 1] <==> !bad[n]);
    }
  }

  /** In every run of the network: all forwarding tables follow the local tables in all states if and
      only if no move is silent. */
  lemma TablesFollowIffNoSilentMove(hash: Hash, nets: seq<Net>, moves: seq<Move>)
    requires NetRun(hash, nets, moves)
    ensures (forall i :: 0 <= i <= |moves| ==> AllFollow(nets[i])) <==>
            (forall i :: 0 <= i < |moves| ==> !SilentMove(nets[i], moves[i]))
  {
    var holds := seq(|nets|, i requires 0 <= i < |nets| => AllFollow(nets[i]));
    var bad := seq(|moves|, i requires 0 <= i < |moves| && i < |nets| => SilentMove(nets[i], moves[i]));
    forall j | 0 <= j < |bad| && holds[j] ensures holds[j + 1] <==> !bad[j] {
      MoveAt(hash, nets, moves, j);
    }
    HoldsUnlessLost(holds, bad);
    assert forall i :: 0 <= i <= |moves| ==> holds[i] == AllFollow(nets[i]);
    assert forall i :: 0 <= i < |moves| ==> bad[i] == SilentMove(nets[i], moves[i]);
  }
}
