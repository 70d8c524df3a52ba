/** When the greedy reconciliation forgives pure line drift, whatever the order of skips and rows. */
module SkipAuditOrders {
  import opened Collections
  import opened SkipAudit

  type Matcher = (string, InventoryRow) -> bool

  // ----- orders -----

  /** Every position below n, once. */
  predicate IsOrder(p: seq<int>, n: nat) {
    |p| == n && (forall i :: 0 <= i < n ==> 0 <= p[i] < n) && NoRepeats(p)
  }

  function Ordered<T>(s: seq<T>, p: seq<int>): (r: seq<T>)
    requires IsOrder(p, |s|)
    ensures |r| == |s| && forall i :: 0 <= i < |s| ==> r[i] == s[p[i]]
  {
    seq(|s|, i requires 0 <= i < |s| && IsOrder(p, |s|) => s[p[i]])
  }

  function Below(n: nat): (s: set<int>)
    ensures forall i :: i in s <==> 0 <= i < n
    ensures |s| == n
  {
    if n == 0 then {} else Below(n - 1) + {n - 1}
  }

  /** The values that a list of positions takes on a set of indices. */
  function Image(x: set<int>, f: seq<int>): set<int>
    requires forall i :: i in x ==> 0 <= i < |f|
  {
    set i | i in x :: f[i]
  }

  lemma OneOf(x: set<int>) returns (i: int)
    requires x != {}
    ensures i in x
  {
    assert (forall i :: i !in x) ==> x == {};
    i :| i in x;
  }

  lemma {:induction false} ImageSize(x: set<int>, f: seq<int>)
    requires forall i :: i in x ==> 0 <= i < |f|
    ensures |Image(x, f)| <= |x|
    ensures (forall i, j :: i in x && j in x && i != j ==> f[i] != f[j]) ==> |Image(x, f)| == |x|
    decreases x
  {
    if x != {} {
      var i := OneOf(x);
      ImageSize(x - {i}, f);
      assert Image(x, f) == Image(x - {i}, f) + {f[i]};
    }
  }

  /** An order reaches every position. */
  lemma {:induction false} OrderReaches(p: seq<int>, n: nat, x: int)
    requires IsOrder(p, n) && 0 <= x < n
    ensures x in p
  {
    var all := Below(n);
    ImageSize(all, p);
    var image := Image(all, p);
    if x !in image {
      SubsetSize(image + {x}, all);
    }
    var i :| i in all && p[i] == x;
  }

  // ----- the two sides of the condition -----

  /** Whatever is left of one file pairs off without remainder. */
  ghost predicate CanPairOff(matches: Matcher, live: seq<SkipSite>, docs: seq<DocSite>) {
    |live| == |docs| && exists m: seq<int> :: Perfect(matches, live, docs, m)
  }

  predicate Perfect(matches: Matcher, live: seq<SkipSite>, docs: seq<DocSite>, m: seq<int>) {
    Pairing(matches, live, docs, m) && forall i :: 0 <= i < |m| ==> m[i] >= 0
  }

  predicate SameRows(matches: Matcher, s: SkipSite, t: SkipSite, d: DocSite, e: DocSite) {
    Pairs(matches, s, d) && Pairs(matches, t, d) && Pairs(matches, s, e) ==> Pairs(matches, t, e)
  }

  /** Two skips that match a common row match the same rows. */
  predicate Clustered(matches: Matcher, live: seq<SkipSite>, docs: seq<DocSite>) {
    forall s, t, d, e :: s in live && t in live && d in docs && e in docs ==> SameRows(matches, s, t, d, e)
  }

  predicate NothingReported(matches: Matcher, live: seq<SkipSite>, docs: seq<DocSite>) {
    Unpaired(live, Greedy(matches, live, docs)) == [] && Unused(docs, Greedy(matches, live, docs)) == []
  }

  lemma {:induction false} SizeAll(a: seq<int>)
    ensures Size(a) <= |a|
    ensures Size(a) == |a| <==> forall i :: 0 <= i < |a| ==> a[i] >= 0
  {
    if a != [] {
      SizeAll(a[..|a| - 1]);
    }
  }

  /** Nothing is reported exactly when the greedy pairing is a perfect one. */
  lemma {:induction false} NothingIffPerfect(matches: Matcher, live: seq<SkipSite>, docs: seq<DocSite>)
    ensures NothingReported(matches, live, docs) <==>
            |live| == |docs| && Perfect(matches, live, docs, Greedy(matches, live, docs))
  {
    CountsAddUp(matches, live, docs);
    GreedyIsPairing(matches, live, docs);
    SizeAll(Greedy(matches, live, docs));
    hide Greedy, Pairing, Unpaired, Unused, Size;
  }

  // ----- clustered lists are forgiven -----

  /** The indices of the skips that match a row, and of the rows that a skip matches. */
  function SkipsOf(matches: Matcher, live: seq<SkipSite>, d: DocSite): (r: set<int>)
    ensures forall l :: l in r <==> 0 <= l < |live| && Pairs(matches, live[l], d)
  {
    set l | 0 <= l < |live| && Pairs(matches, live[l], d)
  }

  function RowsOf(matches: Matcher, docs: seq<DocSite>, s: SkipSite): (r: set<int>)
    ensures forall j :: j in r <==> 0 <= j < |docs| && Pairs(matches, s, docs[j])
  {
    set j | 0 <= j < |docs| && Pairs(matches, s, docs[j])
  }

  /** What is left of two lists lies within them. */
  predicate Within<T(==)>(part: seq<T>, whole: seq<T>) {
    forall x :: x in part ==> x in whole
  }

  /** In a list that pairs off, a cluster has as many skips as rows. */
  lemma {:induction false} EqualSides(matches: Matcher, live: seq<SkipSite>, docs: seq<DocSite>, m: seq<int>,
                                      s: SkipSite, d: DocSite, left: seq<SkipSite>, rest: seq<DocSite>)
    requires Clustered(matches, live, docs) && Within(left, live) && Within(rest, docs)
    requires s in live && d in docs && Pairs(matches, s, d)
    requires |left| == |rest| && Perfect(matches, left, rest, m)
    ensures |SkipsOf(matches, left, d)| == |RowsOf(matches, rest, s)|
  {
    var skips, rows := SkipsOf(matches, left, d), RowsOf(matches, rest, s);
    ImageSize(skips, m);
    DistinctOn(skips, m);
    hide SkipsOf, RowsOf, Pairs;
    forall x | x in Image(skips, m) ensures x in rows {
      var l :| l in skips && m[l] == x;
      assert left[l] in live && rest[x] in docs;
      assert SameRows(matches, left[l], s, d, rest[x]);
    }
    PerfectIsOrder(matches, left, rest, m);
    forall x | x in rows ensures x in Image(skips, m) {
      OrderReaches(m, |left|, x);
      var l :| 0 <= l < |m| && m[l] == x;
      assert left[l] in live && rest[x] in docs;
      assert SameRows(matches, s, left[l], rest[x], d);
      assert l in skips;
    }
    assert Image(skips, m) == rows;
  }

  lemma {:induction false} DistinctOn(x: set<int>, m: seq<int>)
    requires forall i :: i in x ==> 0 <= i < |m| && m[i] >= 0
    requires forall i, j :: 0 <= i < j < |m| && m[i] >= 0 ==> m[i] != m[j]
    ensures forall i, j :: i in x && j in x && i != j ==> m[i] != m[j]
  {
  }

  /** No skip of a cluster is left over that has rows enough. */
  lemma {:induction false} NoSkipLeftOver(matches: Matcher, live: seq<SkipSite>, docs: seq<DocSite>,
                                          d: DocSite, left: seq<SkipSite>, rest: seq<DocSite>, i: nat)
    requires Clustered(matches, live, docs) && Within(left, live) && Within(rest, docs)
    requires i < |left| && d in docs && Pairs(matches, left[i], d)
    requires |SkipsOf(matches, left, d)| <= |RowsOf(matches, rest, left[i])|
    ensures Greedy(matches, left, rest)[i] >= 0
  {
    var a := Greedy(matches, left, rest);
    GreedyIsPairing(matches, left, rest);
    if a[i] < 0 {
      var skips, rows := SkipsOf(matches, left, d), RowsOf(matches, rest, left[i]);
      var others := set l | l in skips && l != i && a[l] >= 0;
      ImageSize(others, a);
      forall j | j in rows ensures j in Image(others, a) {
        if j !in a {
          GreedyIsMaximal(matches, left, rest, i, j);
        }
        var l :| 0 <= l < |a| && a[l] == j;
        assert Pairs(matches, left[l], rest[j]) && Pairs(matches, left[i], rest[j]);
        assert left[l] in live && left[i] in live && rest[j] in docs;
        assert SameRows(matches, left[i], left[l], rest[j], d);
        assert l in others;
      }
      SubsetSize(rows, Image(others, a));
      SubsetSize(others + {i}, skips);
    }
  }

  /** No row of a cluster stays unused that has skips enough, all of them paired. */
  lemma {:induction false} NoRowLeftOver(matches: Matcher, live: seq<SkipSite>, docs: seq<DocSite>,
                                         s: SkipSite, left: seq<SkipSite>, rest: seq<DocSite>, j: nat)
    requires Clustered(matches, live, docs) && Within(left, live) && Within(rest, docs)
    requires j < |rest| && s in live && Pairs(matches, s, rest[j])
    requires |RowsOf(matches, rest, s)| <= |SkipsOf(matches, left, rest[j])|
    requires forall i :: 0 <= i < |left| ==> Greedy(matches, left, rest)[i] >= 0
    ensures j in Greedy(matches, left, rest)
  {
    var a := Greedy(matches, left, rest);
    GreedyIsPairing(matches, left, rest);
    var skips, rows := SkipsOf(matches, left, rest[j]), RowsOf(matches, rest, s);
    ImageSize(skips, a);
    DistinctOn(skips, a);
    hide Greedy;
    forall x | x in Image(skips, a) ensures x in rows {
      var l :| l in skips && a[l] == x;
      assert Pairs(matches, left[l], rest[x]) && left[l] in live && rest[x] in docs && rest[j] in docs;
      assert SameRows(matches, left[l], s, rest[j], rest[x]);
    }
    if j !in a {
      SubsetSize(Image(skips, a) + {j}, rows);
    }
  }

  lemma {:induction false} ClusteredNothing(matches: Matcher, live: seq<SkipSite>, docs: seq<DocSite>, m: seq<int>)
    requires |live| == |docs| && Perfect(matches, live, docs, m) && Clustered(matches, live, docs)
    ensures NothingReported(matches, live, docs)
  {
    GreedyIsPairing(matches, live, docs);
    forall i | 0 <= i < |live| ensures Greedy(matches, live, docs)[i] >= 0 {
      assert Pairs(matches, live[i], docs[m[i]]);
      EqualSides(matches, live, docs, m, live[i], docs[m[i]], live, docs);
      NoSkipLeftOver(matches, live, docs, docs[m[i]], live, docs, i);
    }
    NothingIffPerfect(matches, live, docs);
  }

  /** Pairing off and clusters do not depend on the order. */
  lemma {:induction false} ClusteredInAnyOrder(matches: Matcher, live: seq<SkipSite>, docs: seq<DocSite>, p: seq<int>, q: seq<int>)
    requires Clustered(matches, live, docs) && IsOrder(p, |live|) && IsOrder(q, |docs|)
    ensures Clustered(matches, Ordered(live, p), Ordered(docs, q))
  {
    assert forall s :: s in Ordered(live, p) ==> s in live;
    assert forall d :: d in Ordered(docs, q) ==> d in docs;
    hide SameRows, IsOrder, Ordered;
  }

  /** The row that skip i of the reordered lists pairs with. */
  function Moved(m: seq<int>, p: seq<int>, q: seq<int>, i: nat): nat
    requires i < |p| && 0 <= p[i] < |m| && m[p[i]] in q
  {
    Position(q, m[p[i]])
  }

  lemma {:induction false} PerfectInAnyOrder(matches: Matcher, live: seq<SkipSite>, docs: seq<DocSite>, m: seq<int>,
                                             p: seq<int>, q: seq<int>) returns (m': seq<int>)
    requires |live| == |docs| && Perfect(matches, live, docs, m) && IsOrder(p, |live|) && IsOrder(q, |docs|)
    ensures Perfect(matches, Ordered(live, p), Ordered(docs, q), m')
  {
    var n := |live|;
    m' := [];
    while |m'| < n
      invariant |m'| <= n && forall i :: 0 <= i < |m'| ==> 0 <= m'[i] < n && q[m'[i]] == m[p[i]]
    {
      OrderReaches(q, n, m[p[|m'|]]);
      m' := m' + [Moved(m, p, q, |m'|)];
    }
    forall i, j | 0 <= i < j < n ensures m'[i] != m'[j] {
      DistinctRows(m, p[i], p[j]);
    }
  }

  lemma {:induction false} DistinctRows(m: seq<int>, x: int, y: int)
    requires 0 <= x < |m| && 0 <= y < |m| && x != y && forall i :: 0 <= i < |m| ==> m[i] >= 0
    requires forall i, j :: 0 <= i < j < |m| && m[i] >= 0 ==> m[i] != m[j]
    ensures m[x] != m[y]
  {
  }

  function Position(q: seq<int>, x: int): (i: nat)
    requires x in q
    ensures i < |q| && q[i] == x
  {
    if q[0] == x then 0 else 1 + Position(q[1..], x)
  }

  // ----- lists that are forgiven in every order are clustered -----

  /** While each row in turn matches the skip in the same place, greedy pairs them in step. */
  lemma {:induction false} InStep(matches: Matcher, live: seq<SkipSite>, docs: seq<DocSite>, k: nat, i: nat)
    requires k <= |live| && k <= |docs| && i < k
    requires forall j :: 0 <= j < k ==> Pairs(matches, live[j], docs[j])
    ensures Greedy(matches, live, docs)[i] == i
    decreases |live|, i
  {
    var n := |live| - 1;
    var front := Greedy(matches, live[..n], docs);
    if i < n {
      InStep(matches, live[..n], docs, if k <= n then k else n, i);
      assert Greedy(matches, live, docs)[i] == front[i];
    } else {
      forall j | 0 <= j < n ensures front[j] == j {
        InStep(matches, live[..n], docs, n, j);
      }
      forall j | 0 <= j < n ensures j in front {
        assert front[j] == j;
      }
      FirstFreeIsFirst(matches, live[n], docs, front, 0, n);
    }
  }

  ghost predicate AlwaysForgiven(matches: Matcher, live: seq<SkipSite>, docs: seq<DocSite>) {
    forall p, q :: IsOrder(p, |live|) && IsOrder(q, |docs|) ==>
      NothingReported(matches, Ordered(live, p), Ordered(docs, q))
  }

  function Identity(n: nat): (p: seq<int>)
    ensures IsOrder(p, n)
  {
    seq(n, i => i)
  }

  lemma {:induction false} ForgivenAsIs(matches: Matcher, live: seq<SkipSite>, docs: seq<DocSite>)
    requires AlwaysForgiven(matches, live, docs)
    ensures |live| == |docs| && Perfect(matches, live, docs, Greedy(matches, live, docs))
  {
    assert Ordered(live, Identity(|live|)) == live && Ordered(docs, Identity(|docs|)) == docs;
    NothingIffPerfect(matches, live, docs);
  }

  /** One order after another is an order. */
  lemma {:induction false} OrderTwice<T>(s: seq<T>, p: seq<int>, r: seq<int>) returns (pr: seq<int>)
    requires IsOrder(p, |s|) && IsOrder(r, |s|)
    ensures IsOrder(pr, |s|) && Ordered(s, pr) == Ordered(Ordered(s, p), r)
  {
    pr := Ordered(p, r);
    forall i, j | 0 <= i < j < |s| ensures pr[i] != pr[j] {
      assert r[i] != r[j];
      if r[i] < r[j] {
        assert p[r[i]] != p[r[j]];
      } else {
        assert p[r[j]] != p[r[i]];
      }
    }
  }

  lemma {:induction false} ForgivenReordered(matches: Matcher, live: seq<SkipSite>, docs: seq<DocSite>, p: seq<int>, q: seq<int>)
    requires AlwaysForgiven(matches, live, docs) && IsOrder(p, |live|) && IsOrder(q, |docs|)
    ensures AlwaysForgiven(matches, Ordered(live, p), Ordered(docs, q))
  {
    hide NothingReported;
    forall r, t | IsOrder(r, |live|) && IsOrder(t, |docs|)
      ensures NothingReported(matches, Ordered(Ordered(live, p), r), Ordered(Ordered(docs, q), t))
    {
      var pr := OrderTwice(live, p, r);
      var qt := OrderTwice(docs, q, t);
    }
  }

  /** The order that puts the pairs of `a` first, and then skips 1 and 0 before rows 0 and 1. */
  lemma {:induction false} OthersFirst(matches: Matcher, live: seq<SkipSite>, docs: seq<DocSite>, a: seq<int>)
      returns (live': seq<SkipSite>, docs': seq<DocSite>)
    requires AlwaysForgiven(matches, live, docs) && |live| == |docs| >= 2 && IsOrder(a, |live|) && a[0] == 0 && a[1] == 1
    ensures AlwaysForgiven(matches, live', docs') && |live'| == |docs'| == |live|
    ensures forall k :: 0 <= k < |live| - 2 ==> live'[k] == live[k + 2] && docs'[k] == docs[a[k + 2]]
    ensures live'[|live| - 2] == live[1] && docs'[|live| - 2] == docs[0]
    ensures live'[|live| - 1] == live[0] && docs'[|live| - 1] == docs[1]
  {
    FirstsLastOrder(a, |live|, 0, 1);
    hide AlwaysForgiven, IsOrder, FirstsLast;
    var r := SwappedLast(live);
    var t := FirstsLast(a, 0, 1);
    live', docs' := Ordered(live, r), Ordered(docs, t);
    FirstsLastAt(docs, a, 0, 1);
    hide *;
    ForgivenReordered(matches, live, docs, r, t);
  }

  lemma {:induction false} SwappedLast<T>(s: seq<T>) returns (r: seq<int>)
    requires |s| >= 2
    ensures IsOrder(r, |s|)
    ensures var o := Ordered(s, r);
            o[|s| - 2] == s[1] && o[|s| - 1] == s[0] && forall k :: 0 <= k < |s| - 2 ==> o[k] == s[k + 2]
  {
    var id := Identity(|s|);
    assert id[0] == 0 && id[1] == 1 && forall k :: 0 <= k < |s| ==> id[k] == k;
    r := FirstsLast(id, 1, 0);
    FirstsLastOrder(id, |s|, 1, 0);
    FirstsLastAt(s, id, 1, 0);
  }

  lemma {:induction false} FirstsLastAt<T>(s: seq<T>, p: seq<int>, x: int, y: int)
    requires |s| >= 2 && IsOrder(p, |s|) && IsOrder(FirstsLast(p, x, y), |s|)
    ensures 0 <= x < |s| && 0 <= y < |s| && forall k :: 2 <= k < |s| ==> 0 <= p[k] < |s|
    ensures var o := Ordered(s, FirstsLast(p, x, y));
            o[|s| - 2] == s[x] && o[|s| - 1] == s[y] && forall k :: 0 <= k < |s| - 2 ==> o[k] == s[p[k + 2]]
  {
    var r := FirstsLast(p, x, y);
    assert r[|s| - 2] == x && r[|s| - 1] == y;
    assert forall k :: 0 <= k < |s| - 2 ==> r[k] == p[k + 2];
  }

  /** Skips 0 and 1 share row 0 and skip 1 matches row 1. Greedy pairs 0-0 and 1-1 and completes the
      pairing; had the others gone first, and then 1-0, only row 1 would be left for skip 0. */
  lemma {:induction false} LastRowMatches(matches: Matcher, live: seq<SkipSite>, docs: seq<DocSite>)
    requires AlwaysForgiven(matches, live, docs) && |live| >= 2 && |docs| >= 2
    requires Pairs(matches, live[0], docs[0]) && Pairs(matches, live[1], docs[0]) && Pairs(matches, live[1], docs[1])
    ensures Pairs(matches, live[0], docs[1])
  {
    var n := |live|;
    ForgivenAsIs(matches, live, docs);
    var a := Greedy(matches, live, docs);
    InStep(matches, live, docs, 2, 0);
    InStep(matches, live, docs, 2, 1);
    PerfectIsOrder(matches, live, docs, a);
    hide *;
    var live', docs' := OthersFirst(matches, live, docs, a);
    ForgivenAsIs(matches, live', docs');
    OthersInStep(matches, live, docs, a, live', docs');
    var g := Greedy(matches, live', docs');
    forall i | 0 <= i < n - 1 ensures g[i] == i {
      InStep(matches, live', docs', n - 1, i);
    }
    LastInStep(matches, live', docs', g);
  }

  /** The first two positions moved to the end, as x and y. */
  function FirstsLast(p: seq<int>, x: int, y: int): seq<int>
    requires |p| >= 2
  {
    p[2..] + [x, y]
  }

  lemma {:induction false} FirstsLastOrder(p: seq<int>, n: nat, x: int, y: int)
    requires n >= 2 && IsOrder(p, n) && ((x == p[0] && y == p[1]) || (x == p[1] && y == p[0]))
    ensures IsOrder(FirstsLast(p, x, y), n)
  {
    var r := FirstsLast(p, x, y);
    forall i, j | 0 <= i < j < n ensures r[i] != r[j] {
      if j < n - 2 {
        assert p[i + 2] != p[j + 2];
      } else if i < n - 2 {
        assert p[0] != p[i + 2] && p[1] != p[i + 2];
      } else {
        assert p[0] != p[1];
      }
    }
  }

  lemma {:induction false} PerfectIsOrder(matches: Matcher, live: seq<SkipSite>, docs: seq<DocSite>, a: seq<int>)
    requires |live| == |docs| && Perfect(matches, live, docs, a)
    ensures IsOrder(a, |live|)
  {
  }

  lemma {:induction false} LastInStep(matches: Matcher, live: seq<SkipSite>, docs: seq<DocSite>, g: seq<int>)
    requires |live| == |docs| > 0 && Perfect(matches, live, docs, g)
    requires forall i :: 0 <= i < |live| - 1 ==> g[i] == i
    ensures Pairs(matches, live[|live| - 1], docs[|docs| - 1])
  {
    var n := |live| - 1;
    PerfectIsOrder(matches, live, docs, g);
    OrderReaches(g, n + 1, n);
    var k :| 0 <= k <= n && g[k] == n;
  }

  lemma {:induction false} OthersInStep(matches: Matcher, live: seq<SkipSite>, docs: seq<DocSite>, a: seq<int>,
                                        live': seq<SkipSite>, docs': seq<DocSite>)
    requires |live| == |docs| == |live'| == |docs'| >= 2 && Perfect(matches, live, docs, a)
    requires Pairs(matches, live[1], docs[0])
    requires forall k :: 0 <= k < |live| - 2 ==> live'[k] == live[k + 2] && docs'[k] == docs[a[k + 2]]
    requires live'[|live| - 2] == live[1] && docs'[|live| - 2] == docs[0]
    ensures forall k :: 0 <= k < |live| - 1 ==> Pairs(matches, live'[k], docs'[k])
  {
    hide Pairs;
    forall k | 0 <= k < |live| - 1 ensures Pairs(matches, live'[k], docs'[k]) {
      if k < |live| - 2 {
        assert Pairs(matches, live[k + 2], docs[a[k + 2]]);
      }
    }
  }

  /** The positions below n other than a and b. */
  function Others(n: nat, a: int, b: int): (r: seq<int>)
    ensures forall x :: x in r <==> 0 <= x < n && x != a && x != b
    ensures NoRepeats(r)
    ensures 0 <= a < n && 0 <= b < n && a != b ==> |r| == n - 2
    ensures !(0 <= a < n) && !(0 <= b < n) ==> |r| == n
    ensures 0 <= a < n && !(0 <= b < n) ==> |r| == n - 1
    ensures !(0 <= a < n) && 0 <= b < n ==> |r| == n - 1
  {
    if n == 0 then []
    else
      var front := Others(n - 1, a, b);
      assert n - 1 !in front;
      if n - 1 == a || n - 1 == b then front else front + [n - 1]
  }

  lemma {:induction false} FirstTwo(n: nat, a: int, b: int) returns (p: seq<int>)
    requires 0 <= a < n && 0 <= b < n && a != b
    ensures IsOrder(p, n) && p[0] == a && p[1] == b
  {
    var rest := Others(n, a, b);
    p := [a, b] + rest;
    forall i | 0 <= i < n ensures 0 <= p[i] < n {
      if i >= 2 {
        assert rest[i - 2] in rest;
      }
    }
    forall i, j | 0 <= i < j < n ensures p[i] != p[j] {
      if j >= 2 {
        assert rest[j - 2] in rest;
      }
    }
  }

  lemma {:induction false} ForgivenClustered(matches: Matcher, live: seq<SkipSite>, docs: seq<DocSite>)
    requires AlwaysForgiven(matches, live, docs)
    ensures Clustered(matches, live, docs)
  {
    hide AlwaysForgiven, Pairs;
    forall s, t, d, e | s in live && t in live && d in docs && e in docs ensures SameRows(matches, s, t, d, e) {
      if Pairs(matches, s, d) && Pairs(matches, t, d) && Pairs(matches, s, e) && s != t && d != e {
        var i1 :| 0 <= i1 < |live| && live[i1] == s;
        var i2 :| 0 <= i2 < |live| && live[i2] == t;
        var j1 :| 0 <= j1 < |docs| && docs[j1] == d;
        var j2 :| 0 <= j2 < |docs| && docs[j2] == e;
        var p := FirstTwo(|live|, i2, i1);
        var q := FirstTwo(|docs|, j1, j2);
        ForgivenReordered(matches, live, docs, p, q);
        LastRowMatches(matches, Ordered(live, p), Ordered(docs, q));
      }
    }
  }

  /** Nothing is reported, in whatever order skips and rows are listed, exactly when they can be paired
      off and any two skips that match a common row match the same rows. */
  lemma {:induction false} ForgivenIffClustered(matches: Matcher, live: seq<SkipSite>, docs: seq<DocSite>)
    ensures AlwaysForgiven(matches, live, docs) <==> CanPairOff(matches, live, docs) && Clustered(matches, live, docs)
  {
    hide Clustered, Perfect, NothingReported;
    if AlwaysForgiven(matches, live, docs) {
      ForgivenAsIs(matches, live, docs);
      ForgivenClustered(matches, live, docs);
    }
    if CanPairOff(matches, live, docs) && Clustered(matches, live, docs) {
      var m :| Perfect(matches, live, docs, m);
      forall p, q | IsOrder(p, |live|) && IsOrder(q, |docs|)
        ensures NothingReported(matches, Ordered(live, p), Ordered(docs, q))
      {
        var m' := PerfectInAnyOrder(matches, live, docs, m, p, q);
        ClusteredInAnyOrder(matches, live, docs, p, q);
        ClusteredNothing(matches, Ordered(live, p), Ordered(docs, q), m');
      }
    }
  }
}
