/** Reconciling live test skips with the documented ones, one file at a time. */
module SkipAudit {
  import opened Collections

  /** A skip found in the file. */
  datatype SkipSite = SkipSite(line: nat, snippet: string)

  datatype InventoryRow = InventoryRow(lineInMd: nat, testCell: string, rationaleCell: string)

  /** A line that an inventory row documents. */
  datatype DocSite = DocSite(row: InventoryRow, line: nat)

  // ----- exact lines first -----

  function LiveLines(live: seq<SkipSite>): set<nat> {
    set s | s in live :: s.line
  }

  function DocLines(docs: seq<DocSite>): set<nat> {
    set d | d in docs :: d.line
  }

  /** The live skips on no documented line, in order. */
  function Drifted(live: seq<SkipSite>, lines: set<nat>): (r: seq<SkipSite>)
    ensures forall s :: s in r <==> s in live && s.line !in lines
  {
    if live == [] then []
    else
      var front := Drifted(live[..|live| - 1], lines);
      if live[|live| - 1].line in lines then front else front + [live[|live| - 1]]
  }

  function Vacated(docs: seq<DocSite>, lines: set<nat>): (r: seq<DocSite>)
    ensures forall d :: d in r <==> d in docs && d.line !in lines
  {
    if docs == [] then []
    else
      var front := Vacated(docs[..|docs| - 1], lines);
      if docs[|docs| - 1].line in lines then front else front + [docs[|docs| - 1]]
  }

  // ----- greedy pairing -----

  /** A skip without a snippet pairs with nothing. How a snippet is compared with a row is a parameter. */
  predicate Pairs(matches: (string, InventoryRow) -> bool, s: SkipSite, d: DocSite) {
    s.snippet != "" && matches(s.snippet, d.row)
  }

  /** The first row from `i` on that is free and pairs with `s`, or -1. */
  function FirstFree(matches: (string, InventoryRow) -> bool, s: SkipSite, docs: seq<DocSite>, taken: seq<int>, i: nat): (j: int)
    requires i <= |docs|
    ensures j == -1 || (i <= j < |docs| && j !in taken && Pairs(matches, s, docs[j]))
    decreases |docs| - i
  {
    if i == |docs| then -1
    else if i !in taken && Pairs(matches, s, docs[i]) then i
    else FirstFree(matches, s, docs, taken, i + 1)
  }

  lemma {:induction false} FirstFreeIsFirst(matches: (string, InventoryRow) -> bool, s: SkipSite, docs: seq<DocSite>,
                                            taken: seq<int>, i: nat, k: nat)
    requires i <= k < |docs| && k !in taken && Pairs(matches, s, docs[k])
    ensures 0 <= FirstFree(matches, s, docs, taken, i) <= k
    decreases |docs| - i
  {
    if i < k {
      FirstFreeIsFirst(matches, s, docs, taken, i + 1, k);
    }
  }

  /** For each live skip in turn, the row it consumes, or -1. */
  function Greedy(matches: (string, InventoryRow) -> bool, live: seq<SkipSite>, docs: seq<DocSite>): (a: seq<int>)
    ensures |a| == |live|
  {
    if live == [] then []
    else
      var a := Greedy(matches, live[..|live| - 1], docs);
      a + [FirstFree(matches, live[|live| - 1], docs, a, 0)]
  }

  function Unpaired(live: seq<SkipSite>, a: seq<int>): seq<SkipSite>
    requires |a| == |live|
  {
    if live == [] then []
    else
      var n := |live| - 1;
      Unpaired(live[..n], a[..n]) + if a[n] < 0 then [live[n]] else []
  }

  function Unused(docs: seq<DocSite>, a: seq<int>): seq<DocSite> {
    if docs == [] then []
    else
      var n := |docs| - 1;
      Unused(docs[..n], a) + if n in a then [] else [docs[n]]
  }

  /** Each skip in turn consumes the first row that matches it and is not consumed yet, if there is one. */
  lemma {:induction false} GreedyTakesFirst(matches: (string, InventoryRow) -> bool, live: seq<SkipSite>, docs: seq<DocSite>, i: nat)
    requires i < |live|
    ensures var a := Greedy(matches, live, docs);
            && -1 <= a[i] < |docs|
            && (a[i] >= 0 ==> Pairs(matches, live[i], docs[a[i]]) && a[i] !in a[..i])
            && forall j :: 0 <= j < |docs| && Pairs(matches, live[i], docs[j]) && j !in a[..i] ==> 0 <= a[i] <= j
  {
    var n := |live| - 1;
    var a := Greedy(matches, live[..n], docs);
    var all := Greedy(matches, live, docs);
    assert all == a + [FirstFree(matches, live[n], docs, a, 0)];
    hide Pairs;
    if i < n {
      GreedyTakesFirst(matches, live[..n], docs, i);
      assert all[..i] == a[..i];
    } else {
      assert all[..n] == a;
      forall j | 0 <= j < |docs| && Pairs(matches, live[n], docs[j]) && j !in a ensures 0 <= all[n] <= j {
        FirstFreeIsFirst(matches, live[n], docs, a, 0, j);
      }
    }
  }

  lemma DriftedStep(live: seq<SkipSite>, s: SkipSite, lines: set<nat>)
    ensures Drifted(live + [s], lines) == Drifted(live, lines) + if s.line in lines then [] else [s]
  {
    assert (live + [s])[..|live|] == live;
  }

  lemma SkipAlone(s: SkipSite, lines: set<nat>)
    ensures Drifted([s], lines) == if s.line in lines then [] else [s]
  {
    assert [s][..0] == [];
  }

  /** The exact-line step leaves the other skips in their order. */
  lemma {:induction false} SkipsInOrder(a: seq<SkipSite>, b: seq<SkipSite>, lines: set<nat>)
    ensures Drifted([], lines) == []
    ensures Drifted(a + b, lines) == Drifted(a, lines) + Drifted(b, lines)
  {
    assert Drifted([], lines) == [];
    hide Drifted;
    if b == [] {
      assert a + b == a;
    } else {
      var front, last := b[..|b| - 1], b[|b| - 1];
      SkipsInOrder(a, front, lines);
      assert b == front + [last] && a + b == (a + front) + [last];
      DriftedStep(front, last, lines);
      DriftedStep(a + front, last, lines);
    }
  }

  lemma VacatedStep(docs: seq<DocSite>, d: DocSite, lines: set<nat>)
    ensures Vacated(docs + [d], lines) == Vacated(docs, lines) + if d.line in lines then [] else [d]
  {
    assert (docs + [d])[..|docs|] == docs;
  }

  lemma RowAlone(d: DocSite, lines: set<nat>)
    ensures Vacated([d], lines) == if d.line in lines then [] else [d]
  {
    assert [d][..0] == [];
  }

  lemma {:induction false} RowsInOrder(a: seq<DocSite>, b: seq<DocSite>, lines: set<nat>)
    ensures Vacated([], lines) == []
    ensures Vacated(a + b, lines) == Vacated(a, lines) + Vacated(b, lines)
  {
    assert Vacated([], lines) == [];
    hide Vacated;
    if b == [] {
      assert a + b == a;
    } else {
      var front, last := b[..|b| - 1], b[|b| - 1];
      RowsInOrder(a, front, lines);
      assert b == front + [last] && a + b == (a + front) + [last];
      VacatedStep(front, last, lines);
      VacatedStep(a + front, last, lines);
    }
  }

  lemma NothingYet(matches: (string, InventoryRow) -> bool, docs: seq<DocSite>)
    ensures Greedy(matches, [], docs) == [] && Unpaired([], []) == [] && forall a :: Unused([], a) == []
  {
  }

  lemma GreedyStep(matches: (string, InventoryRow) -> bool, live: seq<SkipSite>, s: SkipSite, docs: seq<DocSite>)
    ensures Greedy(matches, live + [s], docs) ==
            Greedy(matches, live, docs) + [FirstFree(matches, s, docs, Greedy(matches, live, docs), 0)]
  {
    assert (live + [s])[..|live|] == live;
  }

  lemma UnpairedStep(live: seq<SkipSite>, a: seq<int>, s: SkipSite, choice: int)
    requires |a| == |live|
    ensures Unpaired(live + [s], a + [choice]) == Unpaired(live, a) + if choice < 0 then [s] else []
  {
    assert (live + [s])[..|live|] == live && (a + [choice])[..|a|] == a;
  }

  lemma UnusedStep(docs: seq<DocSite>, d: DocSite, a: seq<int>)
    ensures Unused(docs + [d], a) == Unused(docs, a) + if |docs| in a then [] else [d]
  {
    assert (docs + [d])[..|docs|] == docs;
  }

  method Reconcile(matches: (string, InventoryRow) -> bool, live: seq<SkipSite>, docs: seq<DocSite>)
      returns (orphans: seq<SkipSite>, stales: seq<DocSite>)
    ensures var remLive, remDocs := Drifted(live, DocLines(docs)), Vacated(docs, LiveLines(live));
            var a := Greedy(matches, remLive, remDocs);
            orphans == Unpaired(remLive, a) && stales == Unused(remDocs, a)
  {
    var liveLines := LiveLines(live);
    var docLines := DocLines(docs);
    var remLive := DriftedSites(live, docLines);
    var remDocs := VacatedSites(docs, liveLines);
    hide Drifted, Vacated, LiveLines, DocLines, Greedy, Unpaired, Unused;
    NothingYet(matches, remDocs);
    assert remLive[..0] == [];
    var used := new bool[|remDocs|](_ => false);
    ghost var a: seq<int> := [];
    orphans := [];
    for k := 0 to |remLive|
      invariant a == Greedy(matches, remLive[..k], remDocs)
      invariant orphans == Unpaired(remLive[..k], a)
      invariant forall i :: 0 <= i < |remDocs| ==> (used[i] <==> i in a)
    {
      var s := remLive[k];
      var paired := false;
      var i := 0;
      ghost var choice := FirstFree(matches, s, remDocs, a, 0);
      while i < |remDocs|
        invariant 0 <= i <= |remDocs| && !paired
        invariant FirstFree(matches, s, remDocs, a, i) == choice
        invariant forall j :: 0 <= j < |remDocs| ==> (used[j] <==> j in a)
      {
        if !used[i] && s.snippet != "" && matches(s.snippet, remDocs[i].row) {
          used[i] := true;
          paired := true;
          break;
        }
        i := i + 1;
      }
      if !paired {
        orphans := orphans + [s];
      }
      assert remLive[..k + 1] == remLive[..k] + [s];
      GreedyStep(matches, remLive[..k], s, remDocs);
      UnpairedStep(remLive[..k], a, s, choice);
      a := a + [choice];
    }
    assert remLive[..|remLive|] == remLive;
    stales := [];
    assert remDocs[..0] == [];
    for i := 0 to |remDocs|
      invariant stales == Unused(remDocs[..i], a)
      invariant forall j :: 0 <= j < |remDocs| ==> (used[j] <==> j in a)
    {
      assert remDocs[..i + 1] == remDocs[..i] + [remDocs[i]];
      UnusedStep(remDocs[..i], remDocs[i], a);
      assert |remDocs[..i]| == i && stales + [] == stales;
      if !used[i] {
        stales := stales + [remDocs[i]];
      }
    }
    assert remDocs[..|remDocs|] == remDocs;
  }

  method DriftedSites(live: seq<SkipSite>, lines: set<nat>) returns (r: seq<SkipSite>)
    ensures r == Drifted(live, lines)
  {
    r := [];
    for i := 0 to |live|
      invariant r == Drifted(live[..i], lines)
    {
      assert live[..i + 1][..i] == live[..i];
      if live[i].line !in lines {
        r := r + [live[i]];
      }
    }
    assert live[..|live|] == live;
  }

  method VacatedSites(docs: seq<DocSite>, lines: set<nat>) returns (r: seq<DocSite>)
    ensures r == Vacated(docs, lines)
  {
    r := [];
    for i := 0 to |docs|
      invariant r == Vacated(docs[..i], lines)
    {
      assert docs[..i + 1][..i] == docs[..i];
      if docs[i].line !in lines {
        r := r + [docs[i]];
      }
    }
    assert docs[..|docs|] == docs;
  }

  // ----- what any pairing is -----

  /** An assignment of rows to live skips: only skips and rows that pair, no row twice. */
  predicate Pairing(matches: (string, InventoryRow) -> bool, live: seq<SkipSite>, docs: seq<DocSite>, a: seq<int>) {
    && |a| == |live|
    && (forall i :: 0 <= i < |a| ==> -1 <= a[i] < |docs|)
    && (forall i :: 0 <= i < |a| && a[i] >= 0 ==> Pairs(matches, live[i], docs[a[i]]))
    && (forall i, j :: 0 <= i < j < |a| && a[i] >= 0 ==> a[i] != a[j])
  }

  function Size(a: seq<int>): nat {
    if a == [] then 0 else Size(a[..|a| - 1]) + if a[|a| - 1] >= 0 then 1 else 0
  }

  lemma {:induction false} GreedyIsPairing(matches: (string, InventoryRow) -> bool, live: seq<SkipSite>, docs: seq<DocSite>)
    ensures Pairing(matches, live, docs, Greedy(matches, live, docs))
  {
    if live != [] {
      var front := live[..|live| - 1];
      GreedyIsPairing(matches, front, docs);
      var a := Greedy(matches, front, docs);
      var choice := FirstFree(matches, live[|live| - 1], docs, a, 0);
      forall i | 0 <= i < |a| && a[i] >= 0 ensures a[i] != choice {
        assert a[i] in a;
      }
    }
  }

  /** No live skip left unpaired pairs with a row left unused. */
  lemma {:induction false} GreedyIsMaximal(matches: (string, InventoryRow) -> bool, live: seq<SkipSite>, docs: seq<DocSite>, i: nat, j: nat)
    requires i < |live| && j < |docs| && Greedy(matches, live, docs)[i] < 0 && j !in Greedy(matches, live, docs)
    ensures !Pairs(matches, live[i], docs[j])
  {
    var n := |live| - 1;
    var front := Greedy(matches, live[..n], docs);
    assert Greedy(matches, live, docs)[..n] == front;
    if i < n {
      assert forall x :: x in front ==> x in Greedy(matches, live, docs);
      GreedyIsMaximal(matches, live[..n], docs, i, j);
    } else {
      assert j !in front;
      if Pairs(matches, live[n], docs[j]) {
        FirstFreeIsFirst(matches, live[n], docs, front, 0, j);
      }
    }
  }

  // ----- conservation -----

  lemma {:induction false} LiveConserved(live: seq<SkipSite>, a: seq<int>)
    requires |a| == |live|
    ensures |Unpaired(live, a)| + Size(a) == |live|
  {
    if live != [] {
      LiveConserved(live[..|live| - 1], a[..|a| - 1]);
    }
  }

  /** The rows below `n` that the assignment uses. */
  function UsedRows(n: nat, a: seq<int>): (s: set<int>)
    ensures forall x :: x in s <==> 0 <= x < n && x in a
  {
    if n == 0 then {} else UsedRows(n - 1, a) + if n - 1 in a then {n - 1} else {}
  }

  lemma {:induction false} DocsConserved(docs: seq<DocSite>, a: seq<int>)
    ensures |Unused(docs, a)| + |UsedRows(|docs|, a)| == |docs|
  {
    if docs != [] {
      DocsConserved(docs[..|docs| - 1], a);
    }
  }

  /** As many rows are used as skips are paired. */
  lemma {:induction false} UsedCount(n: nat, a: seq<int>)
    requires forall i :: 0 <= i < |a| ==> a[i] < n
    requires forall i, j :: 0 <= i < j < |a| && a[i] >= 0 ==> a[i] != a[j]
    ensures |UsedRows(n, a)| == Size(a)
  {
    hide UsedRows;
    if a == [] {
      assert UsedRows(n, a) == {};
    } else {
      var front, last := a[..|a| - 1], a[|a| - 1];
      UsedCount(n, front);
      assert a == front + [last];
      if last >= 0 {
        assert last !in front;
        assert UsedRows(n, a) == UsedRows(n, front) + {last};
      } else {
        assert UsedRows(n, a) == UsedRows(n, front);
      }
    }
  }

  /** Each live skip left over is either an orphan or paired, each row left over is either stale or
      used, and every pair uses one of each. */
  lemma CountsAddUp(matches: (string, InventoryRow) -> bool, live: seq<SkipSite>, docs: seq<DocSite>)
    ensures var a := Greedy(matches, live, docs);
            |Unpaired(live, a)| + Size(a) == |live| && |Unused(docs, a)| + Size(a) == |docs|
  {
    var a := Greedy(matches, live, docs);
    GreedyIsPairing(matches, live, docs);
    LiveConserved(live, a);
    DocsConserved(docs, a);
    UsedCount(|docs|, a);
  }

  lemma {:induction false} UnpairedOrigin(live: seq<SkipSite>, a: seq<int>, s: SkipSite) returns (i: nat)
    requires |a| == |live| && s in Unpaired(live, a)
    ensures i < |live| && live[i] == s && a[i] < 0
  {
    var n := |live| - 1;
    if a[n] < 0 && s == live[n] {
      i := n;
    } else {
      i := UnpairedOrigin(live[..n], a[..n], s);
    }
  }

  lemma {:induction false} UnusedOrigin(docs: seq<DocSite>, a: seq<int>, d: DocSite) returns (j: nat)
    requires d in Unused(docs, a)
    ensures j < |docs| && docs[j] == d && j !in a
  {
    var n := |docs| - 1;
    if n !in a && d == docs[n] {
      j := n;
    } else {
      j := UnusedOrigin(docs[..n], a, d);
    }
  }

  /** No reported orphan with a snippet matches a reported stale row. */
  lemma OrphansMatchNoStale(matches: (string, InventoryRow) -> bool, live: seq<SkipSite>, docs: seq<DocSite>,
                                 s: SkipSite, d: DocSite)
    requires s in Unpaired(live, Greedy(matches, live, docs)) && d in Unused(docs, Greedy(matches, live, docs))
    ensures s.snippet != "" ==> !matches(s.snippet, d.row)
  {
    var a := Greedy(matches, live, docs);
    var i := UnpairedOrigin(live, a, s);
    var j := UnusedOrigin(docs, a, d);
    GreedyIsMaximal(matches, live, docs, i, j);
  }

  // ----- against the best pairing -----

  /** The rows of a pairing whose skip `a` leaves unpaired. */
  function Rest(m: seq<int>, a: seq<int>): (r: seq<int>)
    requires |m| == |a|
    ensures |r| == |m| && forall i :: 0 <= i < |r| ==> r[i] == if a[i] >= 0 then -1 else m[i]
  {
    seq(|m|, i requires 0 <= i < |m| && |m| == |a| => if a[i] >= 0 then -1 else m[i])
  }

  lemma {:induction false} SplitSize(m: seq<int>, a: seq<int>)
    requires |m| == |a|
    ensures Size(m) <= Size(a) + Size(Rest(m, a))
  {
    if m != [] {
      var n := |m| - 1;
      SplitSize(m[..n], a[..n]);
      assert Rest(m, a)[..n] == Rest(m[..n], a[..n]);
    }
  }

  /** A skip left unpaired can only have been paired with a row that another skip consumed. */
  lemma MustBeUsed(matches: (string, InventoryRow) -> bool, live: seq<SkipSite>, docs: seq<DocSite>, m: seq<int>, i: nat)
    requires Pairing(matches, live, docs, m) && i < |live| && m[i] >= 0 && Greedy(matches, live, docs)[i] < 0
    ensures m[i] in Greedy(matches, live, docs)
  {
    if m[i] !in Greedy(matches, live, docs) {
      GreedyIsMaximal(matches, live, docs, i, m[i]);
    }
  }

  /** The greedy pairing is at least half as large as any pairing whatsoever. */
  lemma AtLeastHalf(matches: (string, InventoryRow) -> bool, live: seq<SkipSite>, docs: seq<DocSite>, m: seq<int>)
    requires Pairing(matches, live, docs, m)
    ensures Size(m) <= 2 * Size(Greedy(matches, live, docs))
  {
    var a := Greedy(matches, live, docs);
    GreedyIsPairing(matches, live, docs);
    var rest := Rest(m, a);
    RestIsUsed(matches, live, docs, m);
    UsedCount(|docs|, rest);
    UsedCount(|docs|, a);
    hide *;
    SplitSize(m, a);
    SubsetSize(UsedRows(|docs|, rest), UsedRows(|docs|, a));
  }

  /** The rows that a pairing uses for skips greedy leaves unpaired are rows that greedy uses. */
  lemma RestIsUsed(matches: (string, InventoryRow) -> bool, live: seq<SkipSite>, docs: seq<DocSite>, m: seq<int>)
    requires Pairing(matches, live, docs, m)
    ensures var a := Greedy(matches, live, docs); UsedRows(|docs|, Rest(m, a)) <= UsedRows(|docs|, a)
  {
    var a := Greedy(matches, live, docs);
    var rest := Rest(m, a);
    hide UsedRows, Greedy, Pairing;
    forall x | x in UsedRows(|docs|, rest) ensures x in UsedRows(|docs|, a) {
      var i :| 0 <= i < |rest| && rest[i] == x;
      MustBeUsed(matches, live, docs, m, i);
    }
  }

  /** No live skip pairs with two different rows. */
  predicate Unambiguous(matches: (string, InventoryRow) -> bool, live: seq<SkipSite>, docs: seq<DocSite>) {
    forall i, j, k :: 0 <= i < |live| && 0 <= j < k < |docs| ==>
      !(Pairs(matches, live[i], docs[j]) && Pairs(matches, live[i], docs[k]))
  }

  lemma OnlyChoice(matches: (string, InventoryRow) -> bool, live: seq<SkipSite>, docs: seq<DocSite>,
                   a: seq<int>, m: seq<int>, i: nat)
    requires Unambiguous(matches, live, docs) && Pairing(matches, live, docs, a) && Pairing(matches, live, docs, m)
    requires i < |live| && a[i] >= 0 && m[i] >= 0
    ensures a[i] == m[i]
  {
    assert Pairs(matches, live[i], docs[a[i]]) && Pairs(matches, live[i], docs[m[i]]);
  }

  /** When snippets are unambiguous no pairing is larger, so a skip and a row that could have been
      paired are never both reported because of the order of the scan. */
  lemma OptimalWhenUnambiguous(matches: (string, InventoryRow) -> bool, live: seq<SkipSite>, docs: seq<DocSite>, m: seq<int>)
    requires Unambiguous(matches, live, docs) && Pairing(matches, live, docs, m)
    ensures Size(m) <= Size(Greedy(matches, live, docs))
  {
    var a := Greedy(matches, live, docs);
    GreedyIsPairing(matches, live, docs);
    UsedCount(|docs|, m);
    UsedCount(|docs|, a);
    hide UsedRows, Greedy, Size, Pairing;
    forall x | x in UsedRows(|docs|, m) ensures x in UsedRows(|docs|, a) {
      var i :| 0 <= i < |m| && m[i] == x;
      if a[i] >= 0 {
        OnlyChoice(matches, live, docs, a, m, i);
        assert a[i] in a;
      } else {
        MustBeUsed(matches, live, docs, m, i);
      }
    }
    SubsetSize(UsedRows(|docs|, m), UsedRows(|docs|, a));
  }

  const FIRST := InventoryRow(1, "first", "")
  const SECOND := InventoryRow(2, "second", "")

  /** With an ambiguous snippet drift is not always forgiven: two skips that merely moved are reported
      as one orphan and one stale row, although both could be paired. */
  lemma AmbiguousDriftReported()
    ensures var matches := (snippet: string, row: InventoryRow) => snippet == "either" || row == FIRST;
            var live := [SkipSite(3, "either"), SkipSite(4, "first")];
            var docs := [DocSite(FIRST, 1), DocSite(SECOND, 2)];
            Pairing(matches, live, docs, [1, 0]) && Size([1, 0]) == 2 &&
            Unpaired(live, Greedy(matches, live, docs)) == [SkipSite(4, "first")] &&
            Unused(docs, Greedy(matches, live, docs)) == [DocSite(SECOND, 2)]
  {
    var matches := (snippet: string, row: InventoryRow) => snippet == "either" || row == FIRST;
    var either, first := SkipSite(3, "either"), SkipSite(4, "first");
    var docs := [DocSite(FIRST, 1), DocSite(SECOND, 2)];
    assert "first" != "either" by { assert "first"[0] != "either"[0]; }
    assert Greedy(matches, [], docs) == [];
    assert FirstFree(matches, either, docs, [], 0) == 0;
    assert FirstFree(matches, first, docs, [0], 0) == -1;
    assert Pairing(matches, [either, first], docs, [1, 0]);
    hide Greedy, FirstFree, Pairing, Pairs;
    GreedyStep(matches, [], either, docs);
    GreedyStep(matches, [either], first, docs);
    assert [] + [either] == [either] && [either] + [first] == [either, first] && [] + [0] == [0] && [0] + [-1] == [0, -1];
    OneOfEach(either, first, docs);
  }

  lemma OneOfEach(x: SkipSite, y: SkipSite, docs: seq<DocSite>)
    requires |docs| == 2
    ensures Unpaired([x, y], [0, -1]) == [y] && Unused(docs, [0, -1]) == [docs[1]] && Size([1, 0]) == 2
  {
    assert [x, y][..1] == [x] && [x][..0] == [] && [0, -1][..1] == [0] && [0][..0] == [];
    assert Unpaired([x], [0]) == [];
    assert docs[..1] == [docs[0]] && docs[..1][..0] == [];
    assert Unused(docs[..1], [0, -1]) == [];
    assert [1, 0][..1] == [1] && [1][..0] == [] && Size([1]) == 1;
  }
}
