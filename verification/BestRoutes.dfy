/** Choosing the best route for a prefix among configured, local and received routes.
    The source walks hash maps; nothing here depends on the order of the walk. */
module BestRoutes {
  import opened Options
  import opened Text
  import opened CcpTypes
  import opened RouteLog
  import opened RoutingTables

  type Incoming = map<AccountId, Table>

  // ---------------------------------------------------------------- configured routes

  /** The longest configured prefix made of at most the first `n` segments. */
  function ConfiguredKey(configured: map<Text, Account>, segments: seq<Text>, n: nat): (key: Option<Text>)
    requires n <= |segments|
    ensures key.Some? ==> key.value in configured
  {
    if n == 0 then None
    else if Join(segments[..n]) in configured then Some(Join(segments[..n]))
    else ConfiguredKey(configured, segments, n - 1)
  }

  function Configured(configured: map<Text, Account>, prefix: Text): Option<Text> {
    ConfiguredKey(configured, Split(prefix), |Split(prefix)|)
  }

  lemma {:induction false} ConfiguredKeyFinds(configured: map<Text, Account>, prefix: Text, n: nat, k: nat)
    requires k <= |Split(prefix)| && 1 <= n <= k
    requires Join(Split(prefix)[..n]) in configured
    ensures var key := ConfiguredKey(configured, Split(prefix), k);
            key.Some? && SegmentPrefix(key.value, prefix) && |Join(Split(prefix)[..n])| <= |key.value|
  {
    JoinPrefix(prefix, k);
    if Join(Split(prefix)[..k]) !in configured {
      ConfiguredKeyFinds(configured, prefix, n, k - 1);
    }
  }

  lemma {:induction false} ConfiguredKeyIsJoin(configured: map<Text, Account>, prefix: Text, k: nat)
    requires k <= |Split(prefix)|
    ensures var key := ConfiguredKey(configured, Split(prefix), k);
            key.Some? ==> SegmentPrefix(key.value, prefix)
  {
    if k > 0 {
      JoinPrefix(prefix, k);
      ConfiguredKeyIsJoin(configured, prefix, k - 1);
    }
  }

  /** A configured route applies exactly if some configured prefix is the wanted prefix cut at a
      dot, and then the longest such prefix wins. */
  lemma ConfiguredIsLongest(configured: map<Text, Account>, prefix: Text)
    ensures var key := Configured(configured, prefix);
            && (key.Some? ==> key.value in configured && SegmentPrefix(key.value, prefix))
            && (forall q :: q in configured && SegmentPrefix(q, prefix) ==> key.Some? && |q| <= |key.value|)
  {
    ConfiguredKeyIsJoin(configured, prefix, |Split(prefix)|);
    forall q | q in configured && SegmentPrefix(q, prefix)
      ensures Configured(configured, prefix).Some? && |q| <= |Configured(configured, prefix).value|
    {
      var n := SegmentPrefixIsJoin(q, prefix);
      ConfiguredKeyFinds(configured, prefix, n, |Split(prefix)|);
    }
  }

  // ---------------------------------------------------------------- received routes

  /** Child before peer before parent, then the shorter path, then the smaller account id. */
  predicate Beats(a: Entry, b: Entry) {
    var ra, rb := a.account.relation.Rank(), b.account.relation.Rank();
    || ra > rb
    || (ra == rb && |a.route.path| < |b.route.path|)
    || (ra == rb && |a.route.path| == |b.route.path| && Less(a.account.id, b.account.id))
  }

  ghost predicate IsBest(candidates: set<Entry>, e: Entry) {
    e in candidates && forall c :: c in candidates && c != e ==> Beats(e, c)
  }

  predicate DistinctAccounts(candidates: set<Entry>) {
    forall a, b :: a in candidates && b in candidates && a != b ==> a.account.id != b.account.id
  }

  lemma BeatsIsTotal(a: Entry, b: Entry)
    requires a.account.id != b.account.id
    ensures Beats(a, b) != Beats(b, a)
  {
    LessIsTotal(a.account.id, b.account.id);
  }

  lemma BeatsIsTransitive(a: Entry, b: Entry, c: Entry)
    requires Beats(a, b) && Beats(b, c)
    ensures Beats(a, c)
  {
    if Less(a.account.id, b.account.id) && Less(b.account.id, c.account.id) {
      LessIsTransitive(a.account.id, b.account.id, c.account.id);
    }
  }

  /** Two best candidates are the same candidate. */
  lemma BestIsUnique(candidates: set<Entry>, a: Entry, b: Entry)
    requires DistinctAccounts(candidates)
    requires IsBest(candidates, a) && IsBest(candidates, b)
    ensures a == b
  {
    if a != b {
      BeatsIsTotal(a, b);
    }
  }

  ghost function BestCandidate(candidates: set<Entry>): (best: Option<Entry>)
    ensures best.Some? ==> IsBest(candidates, best.value)
  {
    if e: Entry :| IsBest(candidates, e) then Some(e) else None
  }

  /** The entries the peers' tables give for a prefix, one per table at most. */
  function Candidates(incoming: Incoming, prefix: Text): set<Entry> {
    set id | id in incoming && Resolve(incoming[id].routes, prefix).Some? :: Resolve(incoming[id].routes, prefix).value
  }

  /** Each peer's table only holds routes through that peer. */
  predicate OwnEntries(incoming: Incoming) {
    forall id, p :: id in incoming && p in incoming[id].routes ==> incoming[id].routes[p].account.id == id
  }

  lemma CandidatesAreDistinct(incoming: Incoming, prefix: Text)
    requires OwnEntries(incoming)
    ensures DistinctAccounts(Candidates(incoming, prefix))
  {
  }

  // ---------------------------------------------------------------- the whole choice

  /** The route announced for a configured or local account: no path, no props, zero auth. */
  function AccountRoute(account: Account): Entry {
    Entry(account, Route(account.address, [], ZERO_AUTH, []))
  }

  ghost function BestRoute(
    local: map<Text, Account>, configured: map<Text, Account>, incoming: Incoming, prefix: Text): Option<Entry>
  {
    match Configured(configured, prefix)
    case Some(key) => Some(AccountRoute(configured[key]))
    case None =>
      if prefix in local then Some(AccountRoute(local[prefix]))
      else BestCandidate(Candidates(incoming, prefix))
  }

  /** The source's fold step: keep the best so far or replace it. */
  function Prefer(best: Entry, next: Entry): Entry {
    var rb, rn := best.account.relation.Rank(), next.account.relation.Rank();
    if rb > rn then best
    else if rb < rn then next
    else if |best.route.path| < |next.route.path| then best
    else if |best.route.path| > |next.route.path| then next
    else if Less(best.account.id, next.account.id) then best
    else next
  }

  lemma PreferKeepsBest(seen: set<Entry>, best: Entry, next: Entry)
    requires IsBest(seen, best)
    requires DistinctAccounts(seen + {next})
    ensures IsBest(seen + {next}, Prefer(best, next))
  {
    if next != best {
      BeatsIsTotal(best, next);
      if Beats(next, best) {
        forall c | c in seen && c != next ensures Beats(next, c) {
          if c != best {
            BeatsIsTransitive(next, best, c);
          }
        }
      }
    }
  }

  /** Fold the candidates in the order they come. */
  function FoldBest(candidates: seq<Entry>): (best: Entry)
    requires candidates != []
  {
    if |candidates| == 1 then candidates[0]
    else Prefer(FoldBest(candidates[..|candidates| - 1]), candidates[|candidates| - 1])
  }

  /** Whatever the order of the candidates, the fold ends at their unique best one. */
  lemma FoldBestInAnyOrder(candidates: seq<Entry>)
    requires candidates != []
    requires DistinctAccounts(set e | e in candidates)
    ensures BestCandidate(set e | e in candidates) == Some(FoldBest(candidates))
  {
    FoldBestIsBest(candidates);
    var all := set e | e in candidates;
    assert IsBest(all, FoldBest(candidates));
    BestIsUnique(all, FoldBest(candidates), BestCandidate(all).value);
  }

  lemma {:induction false} FoldBestIsBest(candidates: seq<Entry>)
    requires candidates != []
    requires DistinctAccounts(set e | e in candidates)
    ensures IsBest((set e | e in candidates), FoldBest(candidates))
  {
    if |candidates| > 1 {
      var n := |candidates| - 1;
      var all := set e | e in candidates;
      var seen := set e | e in candidates[..n];
      assert all == seen + {candidates[n]};
      FoldBestIsBest(candidates[..n]);
      PreferKeepsBest(seen, FoldBest(candidates[..n]), candidates[n]);
    }
  }

  // ---------------------------------------------------------------- which route is chosen

  /** `q` is `prefix`, or `prefix` goes on after it with a dot. */
  predicate CutAtDot(q: Text, prefix: Text) {
    q == prefix || (|q| < |prefix| && q == prefix[..|q|] && prefix[|q|] == 46)
  }

  predicate Unconfigured(configured: map<Text, Account>, prefix: Text) {
    forall q :: q in configured ==> !CutAtDot(q, prefix)
  }

  lemma CutIsSegmentPrefix(q: Text, prefix: Text)
    ensures CutAtDot(q, prefix) <==> SegmentPrefix(q, prefix)
  {
    if q + [DOT] <= prefix {
      assert prefix[..|q|] == (q + [DOT])[..|q|] == q && prefix[|q|] == (q + [DOT])[|q|];
    }
    if |q| < |prefix| && q == prefix[..|q|] && prefix[|q|] == 46 {
      assert q + [DOT] == prefix[..|q| + 1];
    }
  }

  /** Configured routes come first, whatever else there is: the longest configured prefix that is the
      wanted one cut at a dot decides. */
  lemma ConfiguredRouteWins(
    local: map<Text, Account>, configured: map<Text, Account>, incoming: Incoming, prefix: Text, q: Text)
    requires q in configured && CutAtDot(q, prefix)
    requires forall x :: x in configured && CutAtDot(x, prefix) ==> |x| <= |q|
    ensures var account := configured[q];
            BestRoute(local, configured, incoming, prefix)
            == Some(Entry(account, Route(account.address, [], seq(32, _ => 0), [])))
  {
    ConfiguredIsLongest(configured, prefix);
    CutIsSegmentPrefix(q, prefix);
    var key := Configured(configured, prefix).value;
    CutIsSegmentPrefix(key, prefix);
    assert |key| == |q| && key == q;
    assert ZERO_AUTH == seq(32, _ => 0);
  }

  /** Without one, a local route for exactly the wanted prefix comes next. */
  lemma LocalRouteIsNext(
    local: map<Text, Account>, configured: map<Text, Account>, incoming: Incoming, prefix: Text)
    requires Unconfigured(configured, prefix) && prefix in local
    ensures BestRoute(local, configured, incoming, prefix)
         == Some(Entry(local[prefix], Route(local[prefix].address, [], seq(32, _ => 0), [])))
  {
    NoConfiguredKey(configured, prefix);
    assert ZERO_AUTH == seq(32, _ => 0);
  }

  lemma NoConfiguredKey(configured: map<Text, Account>, prefix: Text)
    requires Unconfigured(configured, prefix)
    ensures Configured(configured, prefix).None?
  {
    ConfiguredIsLongest(configured, prefix);
    var key := Configured(configured, prefix);
    if key.Some? {
      CutIsSegmentPrefix(key.value, prefix);
    }
  }

  /** Some peer's table resolves the prefix to this entry. */
  ghost predicate Offered(incoming: Incoming, prefix: Text, e: Entry) {
    exists id :: id in incoming && Resolve(incoming[id].routes, prefix) == Some(e)
  }

  /** A received route is preferred over another one: a child's over a peer's over a parent's over
      anyone else's; then the shorter path; then the account id that comes first in the dictionary. */
  ghost predicate Preferred(a: Entry, b: Entry) {
    && (b.account.relation.Child? ==> a.account.relation.Child?)
    && (b.account.relation.Peer? ==> a.account.relation.Child? || a.account.relation.Peer?)
    && (b.account.relation.Parent? ==> !a.account.relation.NonRoutingAccount?)
    && (a.account.relation == b.account.relation ==>
          || |a.route.path| < |b.route.path|
          || (|a.route.path| == |b.route.path| && DictionaryLess(a.account.id, b.account.id)))
  }

  lemma BeatsIsPreferred(a: Entry, b: Entry)
    requires Beats(a, b)
    ensures Preferred(a, b)
  {
    LessIsDictionaryOrder(a.account.id, b.account.id);
  }

  lemma {:induction false} SomeoneIsBest(candidates: set<Entry>) returns (best: Entry)
    requires candidates != {} && DistinctAccounts(candidates)
    ensures IsBest(candidates, best)
    decreases |candidates|
  {
    var e :| e in candidates;
    var rest := candidates - {e};
    assert candidates == rest + {e};
    if rest == {} {
      best := e;
    } else {
      var b := SomeoneIsBest(rest);
      PreferKeepsBest(rest, b, e);
      best := Prefer(b, e);
    }
  }

  /** Without either, there is a best route exactly if some peer offers one, and then it is an offered
      one that is preferred over every other. */
  lemma ReceivedRouteIsPreferred(
    local: map<Text, Account>, configured: map<Text, Account>, incoming: Incoming, prefix: Text)
    requires OwnEntries(incoming) && Unconfigured(configured, prefix) && prefix !in local
    ensures var best := BestRoute(local, configured, incoming, prefix);
            && (best.Some? <==> exists e :: Offered(incoming, prefix, e))
            && (best.Some? ==>
                  && Offered(incoming, prefix, best.value)
                  && forall e :: Offered(incoming, prefix, e) && e != best.value ==> Preferred(best.value, e))
  {
    NoConfiguredKey(configured, prefix);
    CandidatesAreDistinct(incoming, prefix);
    var candidates := Candidates(incoming, prefix);
    forall e ensures Offered(incoming, prefix, e) <==> e in candidates {
    }
    if e :| Offered(incoming, prefix, e) {
      var best := SomeoneIsBest(candidates);
      assert IsBest(candidates, best);
    }
    var best := BestCandidate(candidates);
    if best.Some? {
      forall e | Offered(incoming, prefix, e) && e != best.value ensures Preferred(best.value, e) {
        BeatsIsPreferred(best.value, e);
      }
    }
  }

  // ---------------------------------------------------------------- the walk

  /** Visits the configured prefixes from long to short, then the local routes, then the peers'
      tables in an arbitrary order; the answer is the order-free `BestRoute`. */
  method GetBestRouteForPrefix(
    local: map<Text, Account>, configured: map<Text, Account>, incoming: Incoming, prefix: Text)
    returns (best: Option<Entry>)
    requires OwnEntries(incoming)
    ensures best == BestRoute(local, configured, incoming, prefix)
  {
    var segments := Split(prefix);
    for i := 0 to |segments|
      invariant Configured(configured, prefix) == ConfiguredKey(configured, segments, |segments| - i)
    {
      var shorter := Join(segments[..|segments| - i]);
      if shorter in configured {
        return Some(AccountRoute(configured[shorter]));
      }
    }
    if prefix in local {
      return Some(AccountRoute(local[prefix]));
    }

    ghost var candidates := Candidates(incoming, prefix);
    CandidatesAreDistinct(incoming, prefix);
    best := None;
    ghost var seen: set<Entry> := {};
    var todo := incoming.Keys;
    while todo != {}
      invariant todo <= incoming.Keys
      invariant seen <= candidates
      invariant forall id :: id in incoming && id !in todo && Resolve(incoming[id].routes, prefix).Some? ==>
        Resolve(incoming[id].routes, prefix).value in seen
      invariant best.None? ==> seen == {}
      invariant best.Some? ==> IsBest(seen, best.value)
      decreases todo
    {
      var id :| id in todo;
      todo := todo - {id};
      var candidate := Resolve(incoming[id].routes, prefix);
      if candidate.Some? {
        if best.None? {
          best := candidate;
        } else {
          PreferKeepsBest(seen, best.value, candidate.value);
          best := Some(Prefer(best.value, candidate.value));
        }
        seen := seen + {candidate.value};
      }
    }
    assert seen == candidates;
    if best.Some? {
      BestIsUnique(candidates, best.value, BestCandidate(candidates).value);
    }
  }
}
