/** The whole reconciliation of one file, exact lines included: when is line drift forgiven? */
module SkipAuditDrift {
  import opened Collections
  import opened SkipAudit
  import opened SkipAuditOrders

  // ----- what the exact-line step leaves -----

  function LeftSkips(live: seq<SkipSite>, docs: seq<DocSite>): seq<SkipSite> {
    Drifted(live, DocLines(docs))
  }

  function LeftRows(live: seq<SkipSite>, docs: seq<DocSite>): seq<DocSite> {
    Vacated(docs, LiveLines(live))
  }

  /** The reconciliation reports neither an orphan nor a stale row. */
  predicate Clean(matches: Matcher, live: seq<SkipSite>, docs: seq<DocSite>) {
    NothingReported(matches, LeftSkips(live, docs), LeftRows(live, docs))
  }

  /** However the same skips and the same rows are listed. */
  ghost predicate AlwaysClean(matches: Matcher, live: seq<SkipSite>, docs: seq<DocSite>) {
    forall live', docs' :: multiset(live') == multiset(live) && multiset(docs') == multiset(docs) ==>
      Clean(matches, live', docs')
  }

  // ----- orders and multisets -----

  function Without<T>(s: seq<T>, k: nat): (r: seq<T>)
    requires k < |s|
    ensures |r| == |s| - 1 && forall i :: 0 <= i < |r| ==> r[i] == s[if i < k then i else i + 1]
  {
    s[..k] + s[k + 1..]
  }

  lemma WithoutMultiset<T>(s: seq<T>, k: nat)
    requires k < |s|
    ensures multiset(s) == multiset(Without(s, k)) + multiset{s[k]}
  {
    assert s == s[..k] + [s[k]] + s[k + 1..];
  }

  lemma LastMultiset<T>(s: seq<T>)
    requires s != []
    ensures multiset(s) == multiset(s[..|s| - 1]) + multiset{s[|s| - 1]}
  {
    assert s == s[..|s| - 1] + [s[|s| - 1]];
  }

  lemma CancelOne<T>(x: multiset<T>, y: multiset<T>, e: T)
    requires x + multiset{e} == y + multiset{e}
    ensures x == y
  {
    forall z ensures x[z] == y[z] {
      assert (x + multiset{e})[z] == (y + multiset{e})[z];
    }
  }

  /** Lists of the same elements are orders of each other. */
  lemma {:induction false} OrderOf<T>(a: seq<T>, b: seq<T>) returns (p: seq<int>)
    requires multiset(a) == multiset(b)
    ensures IsOrder(p, |a|) && Ordered(a, p) == b
  {
    assert |a| == |multiset(a)| == |multiset(b)| == |b|;
    if b == [] {
      p := [];
    } else {
      var k := LastTaken(a, b);
      var q := OrderOf(Without(a, k), b[..|b| - 1]);
      p := Inserted(q, k);
      InsertedOrder(q, |b| - 1, k);
      hide IsOrder;
      assert forall i :: 0 <= i < |b| - 1 ==> Ordered(Without(a, k), q)[i] == b[i];
    }
  }

  /** Where the last element of b stands in a. */
  lemma LastTaken<T>(a: seq<T>, b: seq<T>) returns (k: nat)
    requires multiset(a) == multiset(b) && |a| == |b| > 0
    ensures k < |a| && a[k] == b[|b| - 1] && multiset(Without(a, k)) == multiset(b[..|b| - 1])
  {
    var n := |b| - 1;
    LastMultiset(b);
    assert b[n] in multiset(a);
    k :| 0 <= k < |a| && a[k] == b[n];
    WithoutMultiset(a, k);
    CancelOne(multiset(Without(a, k)), multiset(b[..n]), b[n]);
  }

  /** The order of a shorter list, with position k put last. */
  function Inserted(q: seq<int>, k: nat): seq<int> {
    seq(|q|, i requires 0 <= i < |q| => if q[i] < k then q[i] else q[i] + 1) + [k]
  }

  lemma {:induction false} InsertedOrder(q: seq<int>, n: nat, k: nat)
    requires IsOrder(q, n) && k <= n
    ensures IsOrder(Inserted(q, k), n + 1)
  {
  }

  /** An order without its last position, as an order of the shorter list. */
  function Removed(p: seq<int>): (q: seq<int>)
    requires p != []
    ensures |q| == |p| - 1
  {
    var k := p[|p| - 1];
    seq(|p| - 1, i requires 0 <= i < |p| - 1 => if p[i] < k then p[i] else p[i] - 1)
  }

  lemma {:induction false} RemovedOrder(p: seq<int>, n: nat)
    requires IsOrder(p, n + 1)
    ensures IsOrder(Removed(p), n)
  {
    var q := Removed(p);
    forall i | 0 <= i < n ensures 0 <= q[i] < n && p[i] != p[n] {
      assert p[i] != p[n];
    }
    forall i, j | 0 <= i < j < n ensures q[i] != q[j] {
      assert p[i] != p[j];
    }
  }

  lemma {:induction false} OrderedMultiset<T>(s: seq<T>, p: seq<int>)
    requires IsOrder(p, |s|)
    ensures multiset(Ordered(s, p)) == multiset(s)
  {
    if s != [] {
      var n := |s| - 1;
      var k := p[n];
      RemovedOrder(p, n);
      assert forall i :: 0 <= i < n ==> p[i] != p[n];
      var q, o := Removed(p), Ordered(s, p);
      hide IsOrder;
      assert o[..n] == Ordered(Without(s, k), q);
      hide *;
      OrderedMultiset(Without(s, k), q);
      WithoutMultiset(s, k);
      LastMultiset(o);
    }
  }

  // ----- leaving out is a matter of elements -----

  lemma {:induction false} DriftedCount(live: seq<SkipSite>, lines: set<nat>)
    ensures forall s :: multiset(Drifted(live, lines))[s] == if s.line in lines then 0 else multiset(live)[s]
  {
    if live != [] {
      DriftedCount(live[..|live| - 1], lines);
      LastMultiset(live);
    }
  }

  lemma {:induction false} VacatedCount(docs: seq<DocSite>, lines: set<nat>)
    ensures forall d :: multiset(Vacated(docs, lines))[d] == if d.line in lines then 0 else multiset(docs)[d]
  {
    if docs != [] {
      VacatedCount(docs[..|docs| - 1], lines);
      LastMultiset(docs);
    }
  }

  /** The skips on documented lines, and the rows on live lines. */
  function SettledSkips(live: seq<SkipSite>, lines: set<nat>): seq<SkipSite> {
    if live == [] then []
    else
      var front := SettledSkips(live[..|live| - 1], lines);
      if live[|live| - 1].line in lines then front + [live[|live| - 1]] else front
  }

  function SettledRows(docs: seq<DocSite>, lines: set<nat>): seq<DocSite> {
    if docs == [] then []
    else
      var front := SettledRows(docs[..|docs| - 1], lines);
      if docs[|docs| - 1].line in lines then front + [docs[|docs| - 1]] else front
  }

  lemma {:induction false} SkipsSplit(live: seq<SkipSite>, lines: set<nat>)
    ensures multiset(live) == multiset(Drifted(live, lines)) + multiset(SettledSkips(live, lines))
    ensures forall s :: s in SettledSkips(live, lines) ==> s.line in lines
  {
    if live != [] {
      SkipsSplit(live[..|live| - 1], lines);
      LastMultiset(live);
    }
  }

  lemma {:induction false} RowsSplit(docs: seq<DocSite>, lines: set<nat>)
    ensures multiset(docs) == multiset(Vacated(docs, lines)) + multiset(SettledRows(docs, lines))
    ensures forall d :: d in SettledRows(docs, lines) ==> d.line in lines
  {
    if docs != [] {
      RowsSplit(docs[..|docs| - 1], lines);
      LastMultiset(docs);
    }
  }

  lemma {:induction false} DriftedAll(off: seq<SkipSite>, lines: set<nat>)
    requires forall s :: s in off ==> s.line !in lines
    ensures Drifted(off, lines) == off
  {
    if off != [] {
      assert off[|off| - 1] in off;
      DriftedAll(off[..|off| - 1], lines);
    }
  }

  /** Skips off the documented lines, followed by skips on them: the former are what is left. */
  lemma {:induction false} DriftedFirst(off: seq<SkipSite>, on: seq<SkipSite>, lines: set<nat>)
    requires forall s :: s in off ==> s.line !in lines
    requires forall s :: s in on ==> s.line in lines
    ensures Drifted(off + on, lines) == off
  {
    hide Drifted;
    if on == [] {
      assert off + on == off;
      DriftedAll(off, lines);
    } else {
      var n := |on| - 1;
      assert on[n] in on;
      DriftedFirst(off, on[..n], lines);
      DriftedStep(off + on[..n], on[n], lines);
      assert off + on == (off + on[..n]) + [on[n]];
    }
  }


  lemma {:induction false} VacatedAll(off: seq<DocSite>, lines: set<nat>)
    requires forall d :: d in off ==> d.line !in lines
    ensures Vacated(off, lines) == off
  {
    if off != [] {
      assert off[|off| - 1] in off;
      VacatedAll(off[..|off| - 1], lines);
    }
  }

  lemma {:induction false} VacatedFirst(off: seq<DocSite>, on: seq<DocSite>, lines: set<nat>)
    requires forall d :: d in off ==> d.line !in lines
    requires forall d :: d in on ==> d.line in lines
    ensures Vacated(off + on, lines) == off
  {
    hide Vacated;
    if on == [] {
      assert off + on == off;
      VacatedAll(off, lines);
    } else {
      var n := |on| - 1;
      assert on[n] in on;
      VacatedFirst(off, on[..n], lines);
      VacatedStep(off + on[..n], on[n], lines);
      assert off + on == (off + on[..n]) + [on[n]];
    }
  }


  lemma SameElements<T>(a: seq<T>, b: seq<T>)
    requires multiset(a) == multiset(b)
    ensures forall x :: x in a <==> x in b
  {
    assert forall x :: x in a <==> x in multiset(a);
    assert forall x :: x in b <==> x in multiset(b);
  }

  lemma {:induction false} SkipsInAnyOrder(live: seq<SkipSite>, live': seq<SkipSite>, lines: set<nat>)
    requires multiset(live') == multiset(live)
    ensures multiset(Drifted(live', lines)) == multiset(Drifted(live, lines)) && LiveLines(live') == LiveLines(live)
  {
    SameElements(live', live);
    hide Drifted;
    DriftedCount(live, lines);
    DriftedCount(live', lines);
  }

  lemma {:induction false} RowsInAnyOrder(docs: seq<DocSite>, docs': seq<DocSite>, lines: set<nat>)
    requires multiset(docs') == multiset(docs)
    ensures multiset(Vacated(docs', lines)) == multiset(Vacated(docs, lines)) && DocLines(docs') == DocLines(docs)
  {
    SameElements(docs', docs);
    hide Vacated;
    VacatedCount(docs, lines);
    VacatedCount(docs', lines);
  }

  /** The lists that are left have the same elements, however the inputs are listed. */
  lemma {:induction false} LeftInAnyOrder(live: seq<SkipSite>, docs: seq<DocSite>, live': seq<SkipSite>, docs': seq<DocSite>)
    requires multiset(live') == multiset(live) && multiset(docs') == multiset(docs)
    ensures multiset(LeftSkips(live', docs')) == multiset(LeftSkips(live, docs))
    ensures multiset(LeftRows(live', docs')) == multiset(LeftRows(live, docs))
  {
    hide Drifted, Vacated, DocLines, LiveLines;
    SkipsInAnyOrder(live, live', DocLines(docs));
    RowsInAnyOrder(docs, docs', LiveLines(live));
  }

  /** Every listing of what is left comes from some listing of the inputs. */
  lemma {:induction false} ListingReached(live: seq<SkipSite>, docs: seq<DocSite>, left: seq<SkipSite>, rest: seq<DocSite>)
      returns (live': seq<SkipSite>, docs': seq<DocSite>)
    requires multiset(left) == multiset(LeftSkips(live, docs)) && multiset(rest) == multiset(LeftRows(live, docs))
    ensures multiset(live') == multiset(live) && multiset(docs') == multiset(docs)
    ensures LeftSkips(live', docs') == left && LeftRows(live', docs') == rest
  {
    var docLines, liveLines := DocLines(docs), LiveLines(live);
    SkipsSplit(live, docLines);
    RowsSplit(docs, liveLines);
    SameElements(left, LeftSkips(live, docs));
    SameElements(rest, LeftRows(live, docs));
    live', docs' := left + SettledSkips(live, docLines), rest + SettledRows(docs, liveLines);
    hide Drifted, Vacated, SettledSkips, SettledRows;
    SameElements(live', live);
    SameElements(docs', docs);
    assert DocLines(docs') == docLines && LiveLines(live') == liveLines;
    DriftedFirst(left, SettledSkips(live, docLines), docLines);
    VacatedFirst(rest, SettledRows(docs, liveLines), liveLines);
  }

  /** Nothing is reported, however the skips and the rows are listed, exactly when what the exact-line step
      leaves can be paired off and is clustered. */
  lemma {:induction false} AlwaysCleanIff(matches: Matcher, live: seq<SkipSite>, docs: seq<DocSite>)
    ensures AlwaysClean(matches, live, docs) <==>
            var left, rest := LeftSkips(live, docs), LeftRows(live, docs);
            CanPairOff(matches, left, rest) && Clustered(matches, left, rest)
  {
    var left, rest := LeftSkips(live, docs), LeftRows(live, docs);
    ForgivenIffClustered(matches, left, rest);
    hide CanPairOff, Clustered, NothingReported, IsOrder, Ordered, LeftSkips, LeftRows;
    if AlwaysClean(matches, live, docs) {
      forall p, q | IsOrder(p, |left|) && IsOrder(q, |rest|)
        ensures NothingReported(matches, Ordered(left, p), Ordered(rest, q))
      {
        OrderedMultiset(left, p);
        OrderedMultiset(rest, q);
        var live', docs' := ListingReached(live, docs, Ordered(left, p), Ordered(rest, q));
        assert Clean(matches, live', docs');
      }
    }
    if AlwaysForgiven(matches, left, rest) {
      forall live', docs' | multiset(live') == multiset(live) && multiset(docs') == multiset(docs)
        ensures Clean(matches, live', docs')
      {
        LeftInAnyOrder(live, docs, live', docs');
        var p := OrderOf(left, LeftSkips(live', docs'));
        var q := OrderOf(rest, LeftRows(live', docs'));
      }
    }
  }

  // ----- pure line drift -----

  /** The skips on documented lines that match a row, and the rows on live lines that a skip matches. */
  function SettledSkipsOf(matches: Matcher, live: seq<SkipSite>, d: DocSite, lines: set<nat>): set<int> {
    set l | 0 <= l < |live| && Pairs(matches, live[l], d) && live[l].line in lines
  }

  function SettledRowsOf(matches: Matcher, docs: seq<DocSite>, s: SkipSite, lines: set<nat>): set<int> {
    set j | 0 <= j < |docs| && Pairs(matches, s, docs[j]) && docs[j].line in lines
  }

  /** Around every matching pair, as many skips moved onto documented lines as rows are documented on
      live lines. */
  predicate EvenlySettled(matches: Matcher, live: seq<SkipSite>, docs: seq<DocSite>) {
    forall s, d :: s in live && d in docs && Pairs(matches, s, d) ==>
      |SettledSkipsOf(matches, live, d, DocLines(docs))| == |SettledRowsOf(matches, docs, s, LiveLines(live))|
  }

  predicate EvenlyLeft(matches: Matcher, live: seq<SkipSite>, docs: seq<DocSite>, left: seq<SkipSite>, rest: seq<DocSite>) {
    forall s, d :: s in live && d in docs && Pairs(matches, s, d) ==>
      |SkipsOf(matches, left, d)| == |RowsOf(matches, rest, s)|
  }

  lemma {:induction false} OneMoreSkip(matches: Matcher, live: seq<SkipSite>, x: SkipSite, d: DocSite, lines: set<nat>)
    ensures |SkipsOf(matches, live + [x], d)| == |SkipsOf(matches, live, d)| + if Pairs(matches, x, d) then 1 else 0
    ensures |SettledSkipsOf(matches, live + [x], d, lines)| ==
            |SettledSkipsOf(matches, live, d, lines)| + if Pairs(matches, x, d) && x.line in lines then 1 else 0
  {
    hide Pairs;
    var n := |live|;
    assert SkipsOf(matches, live + [x], d) == SkipsOf(matches, live, d) + if Pairs(matches, x, d) then {n} else {};
    assert SettledSkipsOf(matches, live + [x], d, lines) ==
           SettledSkipsOf(matches, live, d, lines) + if Pairs(matches, x, d) && x.line in lines then {n} else {};
  }

  lemma {:induction false} SkipsCounted(matches: Matcher, live: seq<SkipSite>, d: DocSite, lines: set<nat>)
    ensures |SkipsOf(matches, live, d)| ==
            |SkipsOf(matches, Drifted(live, lines), d)| + |SettledSkipsOf(matches, live, d, lines)|
  {
    if live != [] {
      var n := |live| - 1;
      var front := Drifted(live[..n], lines);
      assert live == live[..n] + [live[n]];
      hide SkipsOf, SettledSkipsOf, Pairs;
      SkipsCounted(matches, live[..n], d, lines);
      OneMoreSkip(matches, live[..n], live[n], d, lines);
      OneMoreSkip(matches, front, live[n], d, lines);
    }
  }

  lemma {:induction false} OneMoreRow(matches: Matcher, docs: seq<DocSite>, x: DocSite, s: SkipSite, lines: set<nat>)
    ensures |RowsOf(matches, docs + [x], s)| == |RowsOf(matches, docs, s)| + if Pairs(matches, s, x) then 1 else 0
    ensures |SettledRowsOf(matches, docs + [x], s, lines)| ==
            |SettledRowsOf(matches, docs, s, lines)| + if Pairs(matches, s, x) && x.line in lines then 1 else 0
  {
    hide Pairs;
    var n := |docs|;
    assert RowsOf(matches, docs + [x], s) == RowsOf(matches, docs, s) + if Pairs(matches, s, x) then {n} else {};
    assert SettledRowsOf(matches, docs + [x], s, lines) ==
           SettledRowsOf(matches, docs, s, lines) + if Pairs(matches, s, x) && x.line in lines then {n} else {};
  }

  lemma {:induction false} RowsCounted(matches: Matcher, docs: seq<DocSite>, s: SkipSite, lines: set<nat>)
    ensures |RowsOf(matches, docs, s)| ==
            |RowsOf(matches, Vacated(docs, lines), s)| + |SettledRowsOf(matches, docs, s, lines)|
  {
    if docs != [] {
      var n := |docs| - 1;
      var front := Vacated(docs[..n], lines);
      assert docs == docs[..n] + [docs[n]];
      hide RowsOf, SettledRowsOf, Pairs;
      RowsCounted(matches, docs[..n], s, lines);
      OneMoreRow(matches, docs[..n], docs[n], s, lines);
      OneMoreRow(matches, front, docs[n], s, lines);
    }
  }

  /** In lists that pair off, clusters keep as many skips as rows exactly when they lose as many. */
  lemma {:induction false} LeftIffSettled(matches: Matcher, live: seq<SkipSite>, docs: seq<DocSite>)
    requires CanPairOff(matches, live, docs) && Clustered(matches, live, docs)
    ensures EvenlyLeft(matches, live, docs, LeftSkips(live, docs), LeftRows(live, docs)) <==>
            EvenlySettled(matches, live, docs)
  {
    var m :| Perfect(matches, live, docs, m);
    hide Pairs, Perfect, Drifted, Vacated, SkipsOf, RowsOf, SettledSkipsOf, SettledRowsOf, Clustered;
    forall s, d | s in live && d in docs && Pairs(matches, s, d)
      ensures |SkipsOf(matches, LeftSkips(live, docs), d)| == |RowsOf(matches, LeftRows(live, docs), s)| <==>
              |SettledSkipsOf(matches, live, d, DocLines(docs))| == |SettledRowsOf(matches, docs, s, LiveLines(live))|
    {
      EqualSides(matches, live, docs, m, s, d, live, docs);
      SkipsCounted(matches, live, d, DocLines(docs));
      RowsCounted(matches, docs, s, LiveLines(live));
    }
  }

  /** Clusters with as many skips as rows are paired without remainder. */
  lemma {:induction false} EvenlyLeftNothing(matches: Matcher, live: seq<SkipSite>, docs: seq<DocSite>, m: seq<int>,
                                             left: seq<SkipSite>, rest: seq<DocSite>)
    requires |live| == |docs| && Perfect(matches, live, docs, m) && Clustered(matches, live, docs)
    requires Within(left, live) && Within(rest, docs) && EvenlyLeft(matches, live, docs, left, rest)
    ensures NothingReported(matches, left, rest)
  {
    var a := Greedy(matches, left, rest);
    hide Clustered, Pairs, SkipsOf, RowsOf, Greedy;
    forall i | 0 <= i < |left| ensures a[i] >= 0 {
      assert left[i] in live;
      var l :| 0 <= l < |live| && live[l] == left[i];
      assert Pairs(matches, live[l], docs[m[l]]) && docs[m[l]] in docs && left[i] in live;
      NoSkipLeftOver(matches, live, docs, docs[m[l]], left, rest, i);
    }
    PerfectIsOrder(matches, live, docs, m);
    forall j | 0 <= j < |rest| ensures j in a {
      assert rest[j] in docs;
      var k :| 0 <= k < |docs| && docs[k] == rest[j];
      OrderReaches(m, |live|, k);
      var l :| 0 <= l < |m| && m[l] == k;
      assert Pairs(matches, live[l], rest[j]) && live[l] in live && rest[j] in docs;
      NoRowLeftOver(matches, live, docs, live[l], left, rest, j);
    }
    AllPaired(left, a);
    AllUsed(rest, a);
  }

  lemma {:induction false} AllPaired(live: seq<SkipSite>, a: seq<int>)
    requires |a| == |live| && forall i :: 0 <= i < |a| ==> a[i] >= 0
    ensures Unpaired(live, a) == []
  {
    if live != [] {
      AllPaired(live[..|live| - 1], a[..|live| - 1]);
    }
  }

  lemma {:induction false} AllUsed(docs: seq<DocSite>, a: seq<int>)
    requires forall j :: 0 <= j < |docs| ==> j in a
    ensures Unused(docs, a) == []
  {
    if docs != [] {
      AllUsed(docs[..|docs| - 1], a);
    }
  }

  /** Drift of skips that all have their rows, in clusters: nothing is reported, as listed or in any order,
      exactly when around every matching pair as many skips landed on documented lines as rows lost theirs
      to live skips. */
  lemma {:induction false} PureDriftCleanIff(matches: Matcher, live: seq<SkipSite>, docs: seq<DocSite>)
    requires CanPairOff(matches, live, docs) && Clustered(matches, live, docs)
    ensures Clean(matches, live, docs) <==> EvenlySettled(matches, live, docs)
    ensures AlwaysClean(matches, live, docs) <==> EvenlySettled(matches, live, docs)
  {
    var left, rest := LeftSkips(live, docs), LeftRows(live, docs);
    var m :| Perfect(matches, live, docs, m);
    LeftIffSettled(matches, live, docs);
    NothingIffPerfect(matches, left, rest);
    AlwaysCleanIff(matches, live, docs);
    assert Within(left, live) && Within(rest, docs);
    assert Clustered(matches, left, rest);
    hide Clustered, NothingReported, LeftSkips, LeftRows, Greedy, Perfect, Pairs;
    if m': seq<int> :| |left| == |rest| && Perfect(matches, left, rest, m') {
      forall s, d | s in live && d in docs && Pairs(matches, s, d)
        ensures |SkipsOf(matches, left, d)| == |RowsOf(matches, rest, s)|
      {
        EqualSides(matches, live, docs, m', s, d, left, rest);
      }
    }
    if EvenlyLeft(matches, live, docs, left, rest) {
      EvenlyLeftNothing(matches, live, docs, m, left, rest);
    }
  }

  const AA := InventoryRow(1, "aa", "")
  const BB := InventoryRow(2, "bb", "")

  /** Two documented skips move down by ten lines, and the first lands on the documented line of the second.
      Each snippet matches its own row only, so pairing by snippet alone would forgive the drift; the
      exact-line step takes the landing for a match and leaves the other skip and row to be reported. */
  lemma {:induction false} DriftOntoDocumentedLine()
    ensures var matches := (snippet: string, row: InventoryRow) => snippet == row.testCell;
            var live := [SkipSite(20, "aa"), SkipSite(30, "bb")];
            var docs := [DocSite(AA, 10), DocSite(BB, 20)];
            var left, rest := LeftSkips(live, docs), LeftRows(live, docs);
            && Unambiguous(matches, live, docs) && AlwaysForgiven(matches, live, docs)
            && Unpaired(left, Greedy(matches, left, rest)) == [SkipSite(30, "bb")]
            && Unused(rest, Greedy(matches, left, rest)) == [DocSite(AA, 10)]
  {
    var matches := (snippet: string, row: InventoryRow) => snippet == row.testCell;
    var first, second, rowA, rowB := SkipSite(20, "aa"), SkipSite(30, "bb"), DocSite(AA, 10), DocSite(BB, 20);
    assert "aa"[0] == 'a' && "bb"[0] == 'b';
    assert !Pairs(matches, first, rowB) && !Pairs(matches, second, rowA);
    assert Perfect(matches, [first, second], [rowA, rowB], [0, 1]);
    assert Unambiguous(matches, [first, second], [rowA, rowB]);
    assert Clustered(matches, [first, second], [rowA, rowB]);
    ForgivenIffClustered(matches, [first, second], [rowA, rowB]);
    FirstSettles(first, second, rowA, rowB);
    assert Greedy(matches, [second][..0], [rowA]) == [] && FirstFree(matches, second, [rowA], [], 1) == -1;
    assert Greedy(matches, [second], [rowA]) == [-1];
    assert Unpaired([second][..0], [-1][..0]) == [] && Unused([rowA][..0], [-1]) == [];
  }

  lemma FirstSettles(first: SkipSite, second: SkipSite, rowA: DocSite, rowB: DocSite)
    requires first.line == rowB.line && second.line !in {rowA.line, rowB.line} && rowA.line !in {first.line, second.line}
    ensures LeftSkips([first, second], [rowA, rowB]) == [second]
    ensures LeftRows([first, second], [rowA, rowB]) == [rowA]
  {
    var live, docs := [first, second], [rowA, rowB];
    assert rowA in docs && rowB in docs && first in live && second in live;
    var docLines, liveLines := DocLines(docs), LiveLines(live);
    assert first.line in docLines && second.line !in docLines && rowB.line in liveLines && rowA.line !in liveLines;
    hide DocLines, LiveLines;
    assert live[..1] == [first] && [first][..0] == [] && docs[..1] == [rowA] && [rowA][..0] == [];
    assert Drifted([], docLines) == [] && Drifted([first], docLines) == [] && Drifted(live, docLines) == [] + [second];
    assert Vacated([], liveLines) == [] && Vacated([rowA], liveLines) == [] + [rowA] && Vacated(docs, liveLines) == [rowA];
  }
}
