/** Lists a set of users in the order the queries and sorts use: by timestamp, then by id. */
module Ordering {
  import opened Domain

  /** No entry occurs twice. */
  ghost predicate Distinct<T>(q: seq<T>) {
    forall i, j | 0 <= i < j < |q| :: q[i] != q[j]
  }

  predicate Before(at: map<UserId, Time>, u: UserId, v: UserId)
    requires u in at && v in at
  {
    at[u] < at[v] || (at[u] == at[v] && u < v)
  }

  predicate IsFirst(at: map<UserId, Time>, s: set<UserId>, u: UserId)
    requires s <= at.Keys
  {
    u in s && forall v | v in s && v != u :: Before(at, u, v)
  }

  ghost predicate Ordered(at: map<UserId, Time>, r: seq<UserId>)
    requires forall u | u in r :: u in at
  {
    forall i, j | 0 <= i < j < |r| :: Before(at, r[i], r[j])
  }

  lemma {:induction false} FirstExists(at: map<UserId, Time>, s: set<UserId>)
    requires s <= at.Keys && s != {}
    ensures exists u :: IsFirst(at, s, u)
    decreases |s|
  {
    var u :| u in s;
    if s == {u} {
      assert IsFirst(at, s, u);
    } else {
      FirstExists(at, s - {u});
      var v :| IsFirst(at, s - {u}, v);
      forall w | w in s && w != u && Before(at, u, v) ensures Before(at, u, w) {
        assert w in s - {u};
      }
      assert IsFirst(at, s, if Before(at, u, v) then u else v);
    }
  }

  ghost function Listing(at: map<UserId, Time>, s: set<UserId>): (r: seq<UserId>)
    requires s <= at.Keys
    ensures |r| == |s|
    ensures forall u :: u in r <==> u in s
    ensures Ordered(at, r)
    decreases |s|
  {
    if s == {} then [] else
      FirstExists(at, s);
      var u :| IsFirst(at, s, u);
      [u] + Listing(at, s - {u})
  }

  lemma SomeElement(r: seq<UserId>)
    ensures r == [] || exists u :: u in r
  {
    assert r != [] ==> r[0] in r;
  }

  /** The order is total: a strictly ordered sequence is the only listing of its elements. */
  lemma {:induction false} ListingIsUnique(at: map<UserId, Time>, s: set<UserId>, r: seq<UserId>)
    requires s <= at.Keys
    requires forall u :: u in r <==> u in s
    requires Ordered(at, r)
    ensures r == Listing(at, s)
    decreases |s|
  {
    if s == {} {
      SomeElement(r);
    } else {
      var l := Listing(at, s);
      assert l[0] in s;
      assert r != [];
      assert r[0] in s && l[0] in r;
      assert r[0] in l;
      assert r[0] == l[0];
      var t := r[1..];
      assert r == [r[0]] + t;
      forall u ensures u in t <==> u in s - {r[0]} {
        if u in t {
          var j :| 0 <= j < |t| && t[j] == u;
          assert r[j + 1] == u && Before(at, r[0], r[j + 1]);
        }
        if u in s - {r[0]} { assert u in r; }
      }
      forall i, j | 0 <= i < j < |t| ensures Before(at, t[i], t[j]) {
        assert t[i] == r[i + 1] && t[j] == r[j + 1];
      }
      ListingIsUnique(at, s - {r[0]}, t);
    }
  }

  lemma ListingDistinct(at: map<UserId, Time>, s: set<UserId>, i: nat, j: nat)
    requires s <= at.Keys
    requires i < j < |s|
    ensures Listing(at, s)[i] != Listing(at, s)[j]
  {
    var r := Listing(at, s);
    assert Before(at, r[i], r[j]);
  }

  function Elements(r: seq<UserId>): set<UserId> {
    set u | u in r
  }

  lemma TailOfDistinct(r: seq<UserId>, k: nat)
    requires k <= |r| && Distinct(r)
    ensures Elements(r[k..]) == Elements(r) - Elements(r[..k])
  {
    forall u ensures u in r[k..] <==> u in r && u !in r[..k] {
      if u in r[k..] {
        var j :| 0 <= j < |r| - k && r[k..][j] == u;
        assert r[k + j] == u;
        assert forall i | 0 <= i < k :: r[..k][i] == r[i] != r[k + j];
      }
      assert r == r[..k] + r[k..];
    }
  }

  lemma {:induction false} DistinctCount(r: seq<UserId>)
    requires Distinct(r)
    ensures |Elements(r)| == |r|
  {
    if r == [] {
      assert Elements(r) == {};
    } else {
      var n := |r| - 1;
      DistinctCount(r[..n]);
      assert r == r[..n] + [r[n]];
      assert Elements(r) == Elements(r[..n]) + {r[n]};
      assert r[n] !in Elements(r[..n]);
    }
  }

  /** Dropping the head of a listing lists what remains. */
  lemma ListingDrops(at: map<UserId, Time>, s: set<UserId>, k: nat)
    requires s <= at.Keys && k <= |s|
    ensures var l := Listing(at, s);
      l[k..] == Listing(at, s - Elements(l[..k])) && |Elements(l[..k])| == k && Elements(l[..k]) <= s
  {
    var l := Listing(at, s);
    forall i, j | 0 <= i < j < |l| ensures l[i] != l[j] { ListingDistinct(at, s, i, j); }
    TailOfDistinct(l, k);
    DistinctCount(l[..k]);
    var t := l[k..];
    assert forall i | 0 <= i < |t| :: t[i] == l[k + i];
    assert forall u :: u in t <==> u in Elements(t);
    assert Elements(l) == s;
    ListingIsUnique(at, s - Elements(l[..k]), t);
  }

  /** A listing only looks at the timestamps of the users it lists. */
  lemma ListingAgrees(at: map<UserId, Time>, bt: map<UserId, Time>, s: set<UserId>)
    requires s <= at.Keys && s <= bt.Keys
    requires forall u | u in s :: at[u] == bt[u]
    ensures Listing(at, s) == Listing(bt, s)
  {
    ListingIsUnique(bt, s, Listing(at, s));
  }

  lemma FirstIsHead(at: map<UserId, Time>, s: set<UserId>, u: UserId)
    requires s <= at.Keys && IsFirst(at, s, u)
    ensures Listing(at, s) == [u] + Listing(at, s - {u})
  {
    var v := Listing(at, s)[0];
    assert v in s;
    assert v != u ==> Before(at, u, v);
  }

  lemma Peel(at: map<UserId, Time>, s: set<UserId>, u: UserId, r: seq<UserId>, all: seq<UserId>)
    requires s <= at.Keys && IsFirst(at, s, u) && all == r + Listing(at, s)
    ensures all == (r + [u]) + Listing(at, s - {u})
  {
    FirstIsHead(at, s, u);
    hide Listing;
  }

  /** Sorts by repeated selection: the first `count` entries of the listing. */
  method List(at: map<UserId, Time>, s: set<UserId>, count: nat) returns (r: seq<UserId>)
    requires s <= at.Keys
    ensures r == Listing(at, s)[..if count <= |s| then count else |s|]
  {
    r := [];
    var rest := s;
    ghost var all := Listing(at, s);
    hide Listing, IsFirst, Before, Ordered;
    while rest != {} && |r| < count
      invariant rest <= s && |r| + |rest| == |s| && |r| <= count
      invariant all == r + Listing(at, rest)
      decreases |rest|
    {
      FirstExists(at, rest);
      var u :| u in rest && IsFirst(at, rest, u);
      Peel(at, rest, u, r, all);
      r := r + [u];
      rest := rest - {u};
    }
  }
}
