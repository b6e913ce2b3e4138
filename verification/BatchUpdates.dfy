/** What a batch of checked prefixes leads to. Each prefix is compared with the table as it was before
    the batch, so nested prefixes can disturb each other; this module says exactly when they do. */
module BatchUpdates {
  import opened Options
  import opened Text
  import opened CcpTypes
  import opened RoutingTables
  import opened BestRoutes
  import opened RouteManagers

  /** What stands under `q` once the batch is installed: its new entry, nothing, or what was there. */
  ghost function Standing(
    m: Manager, local: map<Text, Account>, configured: map<Text, Account>, prefixes: seq<Text>, q: Text): Option<Entry>
  {
    if q in prefixes && Decide(m, local, configured, q).Better? then Some(Decide(m, local, configured, q).entry)
    else if q in prefixes && Decide(m, local, configured, q).Gone? then None
    else if q in m.local then Some(m.local[q])
    else None
  }

  lemma CommitStands(
    hash: Hash, m: Manager, local: map<Text, Account>, configured: map<Text, Account>, prefixes: seq<Text>, q: Text)
    ensures var m' := Commit(hash, m, DecideAll(m, local, configured, prefixes));
            var standing := Standing(m, local, configured, prefixes, q);
            (q in m'.local <==> standing.Some?) && (q in m'.local ==> m'.local[q] == standing.value)
  {
    var job := DecideAll(m, local, configured, prefixes);
    var t0 := Tables(m.local, m.forwarding.routes, []);
    var t := Install(hash, m.address, t0, job.better, job.gone);
    DecideAllGone(m, local, configured, prefixes, q);
    InstallLocal(hash, m.address, t0, job.better, job.gone, q);
    if q in t.local && Pick(q, t.local[q]) in job.better {
      DecideAllBetter(m, local, configured, prefixes, Pick(q, t.local[q]));
    } else if Decide(m, local, configured, q).Better? {
      DecideAllBetter(m, local, configured, prefixes, Pick(q, Decide(m, local, configured, q).entry));
    }
  }

  /** The longest prefix below `k` that stands after the batch leads to account `id`. */
  ghost predicate FallsBackTo(
    m: Manager, local: map<Text, Account>, configured: map<Text, Account>, prefixes: seq<Text>, k: Text, id: AccountId)
  {
    exists j :: j < k && LastStanding(m, local, configured, prefixes, j, k)
                && Standing(m, local, configured, prefixes, j).value.account.id == id
  }

  ghost predicate LastStanding(
    m: Manager, local: map<Text, Account>, configured: map<Text, Account>, prefixes: seq<Text>, j: Text, k: Text)
  {
    && Standing(m, local, configured, prefixes, j).Some?
    && forall q :: j < q < k ==> Standing(m, local, configured, prefixes, q).None?
  }

  /** A checked prefix whose route counts as unchanged resolved through some key `k`. No checked prefix
      from `k` up to it moves, and if `k` goes away, what it falls back to leads to the same account. */
  ghost predicate Undisturbed(
    m: Manager, local: map<Text, Account>, configured: map<Text, Account>, prefixes: seq<Text>, p: Text)
    requires Decide(m, local, configured, p).Same?
  {
    var k := LongestKey(m.local, p, |p|).value;
    && (forall q :: q in prefixes && k <= q < p ==> !Decide(m, local, configured, q).Better?)
    && (k in prefixes && Decide(m, local, configured, k).Gone? ==>
          FallsBackTo(m, local, configured, prefixes, k, m.local[k].account.id))
  }

  ghost predicate ResolvesTo(routes: Routes, p: Text, id: AccountId) {
    var found := Resolve(routes, p);
    found.Some? && found.value.account.id == id
  }

  lemma ResolvesThrough(routes: Routes, p: Text, key: Text, id: AccountId)
    requires IsLongestMatch(routes, p, key)
    ensures ResolvesTo(routes, p, id) <==> routes[key].account.id == id
  {
    ResolveIsLongestMatch(routes, p);
  }

  lemma KeyIsLongest(routes: Routes, p: Text)
    requires Resolve(routes, p).Some?
    ensures IsLongestMatch(routes, p, LongestKey(routes, p, |p|).value)
  {
    forall x | x in routes && x <= p ensures |x| <= |LongestKey(routes, p, |p|).value| {
      LongestKeyBelow(routes, p, |p|, x);
    }
  }

  /** Between the key an address resolves through and the address, everything resolves through it. */
  lemma SameKeyBetween(routes: Routes, p: Text, k: Text, q: Text)
    requires IsLongestMatch(routes, p, k) && k <= q <= p
    ensures Resolve(routes, q) == Some(routes[k])
  {
    assert IsLongestMatch(routes, q, k);
    ResolveIsLongestMatch(routes, q);
  }

  /** After any batch, nested or not, a checked prefix that has a best route resolves to the account of
      that route if and only if it was given that route, or counted as unchanged and is undisturbed. */
  lemma CheckedPrefixResolvesToBestIff(
    hash: Hash, m: Manager, local: map<Text, Account>, configured: map<Text, Account>, prefixes: seq<Text>, p: Text)
    requires p in prefixes && BestRoute(local, configured, m.incoming, p).Some?
    ensures var m' := Commit(hash, m, DecideAll(m, local, configured, prefixes));
            var best := BestRoute(local, configured, m.incoming, p).value;
            ResolvesTo(m'.local, p, best.account.id) <==>
            Decide(m, local, configured, p).Better? || Undisturbed(m, local, configured, prefixes, p)
  {
    var m' := Commit(hash, m, DecideAll(m, local, configured, prefixes));
    var id := BestRoute(local, configured, m.incoming, p).value.account.id;
    forall q
      ensures q in m'.local <==> Standing(m, local, configured, prefixes, q).Some?
      ensures q in m'.local ==> m'.local[q] == Standing(m, local, configured, prefixes, q).value
    {
      CommitStands(hash, m, local, configured, prefixes, q);
    }
    if Decide(m, local, configured, p).Better? {
      assert IsLongestMatch(m'.local, p, p);
      ResolvesThrough(m'.local, p, p, id);
    } else {
      var k := LongestKey(m.local, p, |p|).value;
      KeyIsLongest(m.local, p);
      if q :| q in prefixes && k <= q < p && Decide(m, local, configured, q).Better? {
        MovedAway(m, local, configured, prefixes, p, k, q, m'.local, id);
      } else if k in prefixes && Decide(m, local, configured, k).Gone? {
        FallenBack(m, local, configured, prefixes, p, k, m'.local, id);
      } else {
        OnlyKeyStands(m, local, configured, prefixes, p, k, m'.local);
        ResolvesThrough(m'.local, p, k, id);
      }
    }
  }

  ghost predicate IsStanding(
    m: Manager, local: map<Text, Account>, configured: map<Text, Account>, prefixes: seq<Text>, after: Routes)
  {
    forall q :: && (q in after <==> Standing(m, local, configured, prefixes, q).Some?)
                && (q in after ==> after[q] == Standing(m, local, configured, prefixes, q).value)
  }

  /** A moved prefix at or above `k` takes the address to an account that is not its best one. */
  lemma MovedAway(
    m: Manager, local: map<Text, Account>, configured: map<Text, Account>, prefixes: seq<Text>,
    p: Text, k: Text, q: Text, after: Routes, id: AccountId)
    requires IsStanding(m, local, configured, prefixes, after)
    requires IsLongestMatch(m.local, p, k) && m.local[k].account.id == id
    requires q in prefixes && k <= q < p && Decide(m, local, configured, q).Better?
    ensures !ResolvesTo(after, p, id)
  {
    assert q in after && q <= p;
    LongestKeyBelow(after, p, |p|, q);
    KeyIsLongest(after, p);
    var key := LongestKey(after, p, |p|).value;
    assert k == p[..|k|] && key == p[..|key|] && q == p[..|q|];
    assert k <= key;
    assert key in m.local ==> key == k;
    assert key == k ==> key == q;
    assert key in prefixes && Decide(m, local, configured, key).Better?;
    SameKeyBetween(m.local, p, k, key);
    ResolvesThrough(after, p, key, id);
  }

  /** Nothing above `k` stands unless it moved. */
  lemma NothingAboveKey(
    m: Manager, local: map<Text, Account>, configured: map<Text, Account>, prefixes: seq<Text>,
    p: Text, k: Text, x: Text)
    requires IsLongestMatch(m.local, p, k) && Decide(m, local, configured, p).Same?
    requires forall q :: q in prefixes && k <= q < p ==> !Decide(m, local, configured, q).Better?
    requires x <= p && |k| < |x|
    ensures Standing(m, local, configured, prefixes, x).None?
  {
    assert k == p[..|k|] && x == p[..|x|];
    assert k <= x;
    if x != p {
      assert x < p;
    }
  }

  lemma OnlyKeyStands(
    m: Manager, local: map<Text, Account>, configured: map<Text, Account>, prefixes: seq<Text>,
    p: Text, k: Text, after: Routes)
    requires IsStanding(m, local, configured, prefixes, after)
    requires IsLongestMatch(m.local, p, k) && Decide(m, local, configured, p).Same?
    requires forall q :: q in prefixes && k <= q < p ==> !Decide(m, local, configured, q).Better?
    requires k in prefixes ==> !Decide(m, local, configured, k).Gone?
    ensures IsLongestMatch(after, p, k) && after[k] == m.local[k]
  {
    forall x | x in after && x <= p ensures |x| <= |k| {
      if |k| < |x| {
        NothingAboveKey(m, local, configured, prefixes, p, k, x);
      }
    }
    assert k in prefixes ==> !Decide(m, local, configured, k).Better? by {
      if k != p {
        assert k <= k < p;
      }
    }
  }

  /** If `k` goes away, only prefixes below it are left standing for the address. */
  lemma OnlyBelowKey(
    m: Manager, local: map<Text, Account>, configured: map<Text, Account>, prefixes: seq<Text>,
    p: Text, k: Text, after: Routes)
    requires IsStanding(m, local, configured, prefixes, after)
    requires IsLongestMatch(m.local, p, k) && Decide(m, local, configured, p).Same?
    requires forall q :: q in prefixes && k <= q < p ==> !Decide(m, local, configured, q).Better?
    requires k in prefixes && Decide(m, local, configured, k).Gone?
    ensures forall x :: x in after && x <= p ==> x < k
  {
    forall x | x in after && x <= p ensures x < k {
      if |k| < |x| {
        NothingAboveKey(m, local, configured, prefixes, p, k, x);
      }
      assert k == p[..|k|] && x == p[..|x|];
    }
  }

  lemma FallenBack(
    m: Manager, local: map<Text, Account>, configured: map<Text, Account>, prefixes: seq<Text>,
    p: Text, k: Text, after: Routes, id: AccountId)
    requires IsStanding(m, local, configured, prefixes, after)
    requires IsLongestMatch(m.local, p, k) && Decide(m, local, configured, p).Same?
    requires forall q :: q in prefixes && k <= q < p ==> !Decide(m, local, configured, q).Better?
    requires k in prefixes && Decide(m, local, configured, k).Gone?
    ensures ResolvesTo(after, p, id) <==> FallsBackTo(m, local, configured, prefixes, k, id)
  {
    OnlyBelowKey(m, local, configured, prefixes, p, k, after);
    if ResolvesTo(after, p, id) {
      LongestIsLastStanding(m, local, configured, prefixes, p, k, after);
    }
    if j :| j < k && LastStanding(m, local, configured, prefixes, j, k)
            && Standing(m, local, configured, prefixes, j).value.account.id == id {
      LastStandingIsLongest(m, local, configured, prefixes, p, k, j, after);
      ResolvesThrough(after, p, j, id);
    }
  }

  lemma LongestIsLastStanding(
    m: Manager, local: map<Text, Account>, configured: map<Text, Account>, prefixes: seq<Text>,
    p: Text, k: Text, after: Routes)
    requires IsStanding(m, local, configured, prefixes, after) && k <= p
    requires (forall x :: x in after && x <= p ==> x < k) && Resolve(after, p).Some?
    ensures var j := LongestKey(after, p, |p|).value;
            j < k && LastStanding(m, local, configured, prefixes, j, k)
  {
    KeyIsLongest(after, p);
    var j := LongestKey(after, p, |p|).value;
    forall q | j < q < k ensures Standing(m, local, configured, prefixes, q).None? {
      assert q <= p;
    }
  }

  lemma LastStandingIsLongest(
    m: Manager, local: map<Text, Account>, configured: map<Text, Account>, prefixes: seq<Text>,
    p: Text, k: Text, j: Text, after: Routes)
    requires IsStanding(m, local, configured, prefixes, after) && j < k <= p
    requires (forall x :: x in after && x <= p ==> x < k) && LastStanding(m, local, configured, prefixes, j, k)
    ensures IsLongestMatch(after, p, j)
  {
    forall x | x in after && x <= p ensures |x| <= |j| {
      assert j == p[..|j|] && x == p[..|x|];
      assert |j| < |x| ==> j < x;
    }
  }

  /** No prefix of the batch is a proper prefix of another. */
  predicate Unnested(prefixes: seq<Text>) {
    forall p, q :: p in prefixes && q in prefixes && p <= q ==> p == q
  }

  /** In particular, after an unnested batch every checked prefix that has a best route resolves to
      the account of that route. */
  lemma CheckedPrefixesResolveToBest(
    hash: Hash, m: Manager, local: map<Text, Account>, configured: map<Text, Account>, prefixes: seq<Text>, p: Text)
    requires Unnested(prefixes) && p in prefixes
    requires BestRoute(local, configured, m.incoming, p).Some?
    ensures var m' := Commit(hash, m, DecideAll(m, local, configured, prefixes));
            ResolvesTo(m'.local, p, BestRoute(local, configured, m.incoming, p).value.account.id)
  {
    CheckedPrefixResolvesToBestIff(hash, m, local, configured, prefixes, p);
  }

  /** So checking an unnested batch again right after installing it moves nothing. */
  lemma RecheckMovesNothing(
    hash: Hash, m: Manager, local: map<Text, Account>, configured: map<Text, Account>, prefixes: seq<Text>)
    requires Unnested(prefixes)
    ensures var m' := Commit(hash, m, DecideAll(m, local, configured, prefixes));
            DecideAll(m', local, configured, prefixes).better == []
  {
    var m' := Commit(hash, m, DecideAll(m, local, configured, prefixes));
    var better := DecideAll(m', local, configured, prefixes).better;
    if better != [] {
      DecideAllBetter(m', local, configured, prefixes, better[0]);
      CheckedPrefixesResolveToBest(hash, m, local, configured, prefixes, better[0].prefix);
      assert false;
    }
  }

  /** Nesting breaks it: while `p` moves to a new account, a longer prefix `q` that resolved through `p`
      to its best account counts as unchanged, and then follows `p` away from its best account. */
  lemma NestedBatchMissesBest(
    hash: Hash, m: Manager, local: map<Text, Account>, configured: map<Text, Account>, p: Text, q: Text, best: Entry)
    requires p < q && p in m.local
    requires forall k :: |p| < k <= |q| ==> q[..k] !in m.local
    requires Decide(m, local, configured, p).Better?
    requires BestRoute(local, configured, m.incoming, q) == Some(best)
    requires best.account.id == m.local[p].account.id
    ensures var m' := Commit(hash, m, DecideAll(m, local, configured, [p, q]));
            !ResolvesTo(m'.local, q, best.account.id)
  {
    LongestBelow(m.local, q, p, |q|);
    assert Decide(m, local, configured, q).Same?;
    CheckedPrefixResolvesToBestIff(hash, m, local, configured, [p, q], q);
  }

  lemma {:induction false} LongestBelow(m: Routes, address: Text, p: Text, n: nat)
    requires p in m && p <= address && |p| <= n <= |address|
    requires forall k :: |p| < k <= n ==> address[..k] !in m
    ensures LongestKey(m, address, n) == Some(p)
  {
    if n > |p| {
      LongestBelow(m, address, p, n - 1);
    } else {
      assert address[..n] == p;
    }
  }
}
