/** Operand lists that are not fully parenthesised, which the operand swap promises not to mis-handle. */
module OperandLists {
  import opened Metamorphic

  /** An operand without a top-level space, or a bare `u op v`. */
  datatype Operand = Whole(w: string) | Bare(u: string, op: string, v: string)

  predicate Piece(w: string) {
    Solid(w, 0) && w != "" && w !in BIN_OPS
  }

  predicate GoodOperand(o: Operand) {
    match o
    case Whole(w) => Piece(w)
    case Bare(u, op, v) => Piece(u) && Piece(v) && Word(op) && op != ""
  }

  predicate GoodList(os: seq<Operand>) {
    forall o :: o in os ==> GoodOperand(o)
  }

  function OperandText(o: Operand): string {
    match o
    case Whole(w) => w
    case Bare(u, op, v) => Infix(u, op, v)
  }

  function ListText(os: seq<Operand>): string {
    if os == [] then ""
    else if |os| == 1 then OperandText(os[0])
    else OperandText(os[0]) + ("," + (" " + ListText(os[1..])))
  }

  /** A bare operator that the scan knows. */
  predicate Seen(o: Operand) {
    o.Bare? && o.op in BIN_OPS
  }

  predicate Unseen(os: seq<Operand>) {
    forall o :: o in os ==> !Seen(o)
  }

  predicate OnlyBare(os: seq<Operand>, b: nat) {
    b < |os| && forall i :: 0 <= i < |os| ==> (Seen(os[i]) <==> i == b)
  }

  // ----- scanning a list -----

  /** Text that an operand or the rest of an infix may be followed by. */
  predicate Follows(rest: string) {
    rest == "" || rest[0] == ' ' || rest[0] == ','
  }

  /** The scan of `t` finds nothing and goes on into `rest`, with a space before `t` and without. */
  predicate Passed(t: string, rest: string, at: nat) {
    && TopOps(t + rest, 0, at) == TopOps(rest, 0, at + |t|)
    && TopOps(" " + (t + rest), 0, at) == TopOps(rest, 0, at + 1 + |t|)
  }

  lemma PassPiece(w: string, rest: string, at: nat)
    requires Piece(w) && Follows(rest)
    ensures Passed(w, rest, at)
  {
    assert " " + (w + rest) == " " + w + rest;
    SkipSolid(w, rest, 0, at);
    SpaceThenSolid(w, rest, at);
  }

  /** A space between two texts that are passed. */
  lemma PassSpace(t: string, t': string, rest: string, at: nat)
    requires Passed(t, " " + (t' + rest), at) && Passed(t', rest, at + |t|) && Passed(t', rest, at + 1 + |t|)
    ensures Passed(t + (" " + t'), rest, at)
  {
    hide TopOps;
    assert (t + (" " + t')) + rest == t + (" " + (t' + rest));
  }

  /** A comma and a space between two texts that are passed. */
  lemma PassComma(t: string, t': string, rest: string, at: nat)
    requires Passed(t, "," + (" " + (t' + rest)), at)
    requires Passed(t', rest, at + |t| + 1) && Passed(t', rest, at + |t| + 2)
    ensures Passed(t + ("," + (" " + t')), rest, at)
  {
    hide TopOps;
    var more := " " + (t' + rest);
    TopOpsComma(more, at + |t|);
    TopOpsComma(more, at + 1 + |t|);
    assert (t + ("," + (" " + t'))) + rest == t + ("," + more);
  }

  lemma {:induction false} PassOperand(o: Operand, rest: string, at: nat)
    requires GoodOperand(o) && !Seen(o) && Follows(rest)
    ensures Passed(OperandText(o), rest, at)
  {
    match o
    case Whole(w) => PassPiece(w, rest, at);
    case Bare(u, op, v) =>
      WordSolid(op);
      var t := op + (" " + v);
      Flatten(u, op, v);
      assert op + " " + v == t;
      assert Follows(" " + (v + rest)) && Follows(" " + (t + rest));
      hide Passed, Piece;
      PassPieces(op, v, rest, at + |u|);
      PassPieces(op, v, rest, at + 1 + |u|);
      PassPiece(u, " " + (t + rest), at);
      PassSpace(u, t, rest, at);
  }

  lemma {:induction false} PassPieces(t: string, t': string, rest: string, at: nat)
    requires Solid(t, 0) && t != "" && t !in BIN_OPS && Piece(t') && Follows(rest)
    ensures Passed(t + (" " + t'), rest, at)
  {
    assert Piece(t) && Follows(" " + (t' + rest));
    hide *;
    PassPiece(t, " " + (t' + rest), at);
    PassPiece(t', rest, at + |t|);
    PassPiece(t', rest, at + 1 + |t|);
    PassSpace(t, t', rest, at);
  }

  lemma {:induction false} ListParts(os: seq<Operand>)
    requires os != [] && GoodList(os) && Unseen(os)
    ensures GoodOperand(os[0]) && !Seen(os[0]) && GoodList(os[1..]) && Unseen(os[1..])
  {
    assert os[0] in os;
  }

  /** A list without a known bare operator is passed over. */
  lemma {:induction false} PassList(os: seq<Operand>, rest: string, at: nat)
    requires os != [] && GoodList(os) && Unseen(os) && Follows(rest)
    ensures Passed(ListText(os), rest, at)
  {
    ListParts(os);
    hide Passed, GoodOperand, Seen, OperandText, GoodList, Unseen;
    var t := OperandText(os[0]);
    if |os| == 1 {
      PassOperand(os[0], rest, at);
    } else {
      var t' := ListText(os[1..]);
      assert Follows("," + (" " + (t' + rest)));
      PassList(os[1..], rest, at + |t| + 1);
      PassList(os[1..], rest, at + |t| + 2);
      PassOperand(os[0], "," + (" " + (t' + rest)), at);
      PassComma(t, t', rest, at);
    }
  }

  lemma {:induction false} NothingAfter(os: seq<Operand>, at: nat)
    requires os != [] && GoodList(os) && Unseen(os)
    ensures TopOps(ListText(os), 0, at) == [] && TopOps(" " + ListText(os), 0, at) == []
  {
    assert Follows("");
    hide GoodList, Unseen, ListText, TopOps;
    TopOpsEmpty();
    AppendNothing(ListText(os));
    PassList(os, "", at);
  }

  /** The scan of a list goes on to a known operator behind it. */
  lemma {:induction false} ScanUpTo(left: seq<Operand>, op: string, v: string)
    requires left != [] && GoodList(left) && Unseen(left) && op in BIN_OPS
    ensures TopOps(Infix(ListText(left), op, v), 0, 0)
            == [Found(|ListText(left)|, op)] + TopOps(" " + v, 0, |ListText(left)| + 1 + |op|)
  {
    var tail := " " + (op + " " + v);
    assert Follows(tail);
    hide GoodList, Unseen, ListText, TopOps, Infix;
    Flatten(ListText(left), op, v);
    PassList(left, tail, 0);
    FindsOpHere(op, v, |ListText(left)|);
  }

  /** The scan of two such lists around a known operator. */
  lemma {:induction false} ScanAround(left: seq<Operand>, op: string, right: seq<Operand>)
    requires left != [] && right != [] && GoodList(left) && GoodList(right) && Unseen(left) && Unseen(right)
    requires op in BIN_OPS
    ensures TopOps(Infix(ListText(left), op, ListText(right)), 0, 0) == [Found(|ListText(left)|, op)]
  {
    hide *;
    ScanUpTo(left, op, ListText(right));
    NothingAfter(right, |ListText(left)| + 1 + |op|);
  }

  // ----- splitting a list at a bare operand -----

  function Left(os: seq<Operand>, b: nat): seq<Operand>
    requires b < |os| && os[b].Bare?
  {
    os[..b] + [Whole(os[b].u)]
  }

  function Right(os: seq<Operand>, b: nat): seq<Operand>
    requires b < |os| && os[b].Bare?
  {
    [Whole(os[b].v)] + os[b + 1..]
  }

  lemma {:induction false} SplitAt(os: seq<Operand>, b: nat)
    requires b < |os| && os[b].Bare?
    ensures ListText(os) == Infix(ListText(Left(os, b)), os[b].op, ListText(Right(os, b)))
  {
    var u, op, v := os[b].u, os[b].op, os[b].v;
    if b == 0 {
      assert Left(os, 0) == [Whole(u)];
      assert Right(os, 0)[1..] == os[1..];
      if |os| > 1 {
        var more := "," + (" " + ListText(os[1..]));
        assert ListText(os) == Infix(u, op, v) + more;
        assert ListText(Right(os, 0)) == v + more;
        assert Infix(u, op, v) + more == Infix(u, op, v + more);
      }
    } else {
      SplitAt(os[1..], b - 1);
      assert Left(os, b)[1..] == Left(os[1..], b - 1) && |Left(os, b)| > 1;
      assert Right(os, b) == Right(os[1..], b - 1);
      var t, l, r := OperandText(os[0]), ListText(Left(os[1..], b - 1)), ListText(Right(os, b));
      assert ListText(os) == t + ("," + (" " + Infix(l, op, r)));
      assert ListText(Left(os, b)) == t + ("," + (" " + l));
      MoveIn(t, l, op, r);
    }
  }

  lemma MoveIn(t: string, l: string, op: string, r: string)
    ensures t + ("," + (" " + Infix(l, op, r))) == Infix(t + ("," + (" " + l)), op, r)
  {
  }

  lemma {:induction false} SidesGood(os: seq<Operand>, b: nat)
    requires GoodList(os) && b < |os| && os[b].Bare? && Unseen(os[..b])
    ensures GoodList(Left(os, b)) && GoodList(Right(os, b)) && Unseen(Left(os, b))
    ensures Unseen(os[b + 1..]) <==> Unseen(Right(os, b))
  {
    assert os[b] in os;
    assert forall o :: o in os[..b] || o in os[b + 1..] ==> o in os;
    assert forall o :: o in os[b + 1..] ==> o in Right(os, b);
  }

  /** The first known bare operator of a list. */
  lemma {:induction false} FirstSeen(os: seq<Operand>) returns (b: nat)
    requires !Unseen(os)
    ensures b < |os| && Seen(os[b]) && Unseen(os[..b])
  {
    if Seen(os[0]) {
      b := 0;
    } else {
      assert !Unseen(os[1..]) by {
        var o :| o in os && Seen(o);
        assert o in os[1..];
      }
      b := FirstSeen(os[1..]);
      assert os[..b + 1] == [os[0]] + os[1..][..b];
      b := b + 1;
    }
  }

  lemma {:induction false} FoundBehind(left: seq<Operand>, op: string, v: string, at: nat)
    requires left != [] && GoodList(left) && Unseen(left) && op in BIN_OPS
    ensures TopOps(" " + Infix(ListText(left), op, v), 0, at) != []
  {
    var tail := " " + (op + " " + v);
    assert Follows(tail);
    hide GoodList, Unseen, ListText, TopOps, Infix;
    Flatten(ListText(left), op, v);
    PassList(left, tail, at);
    FindsOpHere(op, v, at + 1 + |ListText(left)|);
  }

  lemma {:induction false} SeenFound(os: seq<Operand>, at: nat)
    requires GoodList(os) && !Unseen(os)
    ensures TopOps(" " + ListText(os), 0, at) != []
  {
    var b := FirstSeen(os);
    var left, op, right := Left(os, b), os[b].op, Right(os, b);
    assert left != [] && op in BIN_OPS;
    hide *;
    SidesGood(os, b);
    SplitAt(os, b);
    FoundBehind(left, op, ListText(right), at);
  }

  // ----- telling the two sides apart -----

  /** How far the text goes on before a space at depth 0. */
  function Gap(s: string, depth: int): (n: nat)
    ensures n <= |s|
  {
    if s == "" || (s[0] == ' ' && depth == 0) then 0
    else 1 + Gap(s[1..], if s[0] == '(' then depth + 1 else if s[0] == ')' then depth - 1 else depth)
  }

  lemma {:induction false} GapAfterSolid(w: string, rest: string, d: nat)
    requires Solid(w, d)
    ensures Gap(w + rest, d) == |w| + Gap(rest, 0)
  {
    if w == "" {
      assert w + rest == rest;
    } else {
      assert (w + rest)[1..] == w[1..] + rest;
      GapAfterSolid(w[1..], rest, if w[0] == '(' then d + 1 else if w[0] == ')' then d - 1 else d);
    }
  }

  lemma {:induction false} GapInBalanced(w: string, rest: string, d: nat)
    requires Balanced(w, d)
    ensures Gap(w + rest, d) <= |w| + Gap(rest, 0)
  {
    if w == "" {
      assert w + rest == rest;
    } else {
      assert (w + rest)[1..] == w[1..] + rest;
      GapInBalanced(w[1..], rest, if w[0] == '(' then d + 1 else if w[0] == ')' then d - 1 else d);
    }
  }

  lemma {:induction false} GapOfPrefix(p: string, x: string, y: string, d: int)
    requires Gap(p + x, d) < |p|
    ensures Gap(p + y, d) == Gap(p + x, d)
  {
    if !(p[0] == ' ' && d == 0) {
      assert (p + x)[1..] == p[1..] + x && (p + y)[1..] == p[1..] + y;
      GapOfPrefix(p[1..], x, y, if p[0] == '(' then d + 1 else if p[0] == ')' then d - 1 else d);
    }
  }

  /** If solid text can be moved from the end of a list to its beginning, it is what the list begins with. */
  lemma {:induction false} MovedPiece(t: string, w: string, q: string)
    requires Balanced(t, 0) && Solid(w, 0) && (t + ", ") + w == w + (", " + q)
    ensures |w| + 1 == Gap(t + ", ", 0) <= |t| + 1 && w <= t + ", "
  {
    var p := t + ", ";
    GapAfterSolid(w, ", " + q, 0);
    assert (", " + q)[1..] == " " + q;
    assert Gap(", " + q, 0) == 1;
    assert ", "[1..] == " ";
    GapInBalanced(t, ", ", 0);
    assert p + "" == p;
    GapOfPrefix(p, "", w, 0);
    assert |w| < |p|;
    assert forall i :: 0 <= i < |w| ==> w[i] == (w + (", " + q))[i] == (p + w)[i] == p[i];
  }

  lemma CommaSpace(w: string, t: string)
    ensures w + ("," + (" " + t)) == w + (", " + t) == (w + ", ") + t
  {
  }

  lemma BalancedComma(w: string, t: string)
    requires Balanced(w, 0) && Balanced(t, 0)
    ensures Balanced(w + ("," + (" " + t)), 0)
  {
    PlainBalanced(", ");
    hide *;
    CommaSpace(w, t);
    BalancedConcat(w, ", ", 0);
    BalancedConcat(w + ", ", t, 0);
  }

  lemma {:induction false} OperandBalanced(o: Operand)
    requires GoodOperand(o)
    ensures Balanced(OperandText(o), 0)
  {
    match o
    case Whole(w) => SolidBalanced(w, 0);
    case Bare(u, op, v) => Joined3(u, " " + op + " ", v);
  }

  lemma {:induction false} ListBalanced(os: seq<Operand>)
    requires GoodList(os)
    ensures Balanced(ListText(os), 0)
  {
    if os != [] {
      assert os[0] in os;
      OperandBalanced(os[0]);
      hide Balanced, GoodOperand, OperandText;
      if |os| > 1 {
        ListBalanced(os[1..]);
        BalancedComma(OperandText(os[0]), ListText(os[1..]));
      }
    }
  }

  lemma {:induction false} ListSnoc(os: seq<Operand>, w: string)
    requires os != []
    ensures ListText(os + [Whole(w)]) == (ListText(os) + ", ") + w
  {
    var all := os + [Whole(w)];
    CommaSpace(OperandText(os[0]), ListText(all[1..]));
    if |os| == 1 {
      assert all[1..] == [Whole(w)];
    } else {
      ListSnoc(os[1..], w);
      assert all[1..] == os[1..] + [Whole(w)];
      CommaSpace(OperandText(os[0]), ListText(os[1..]));
    }
  }

  lemma {:induction false} ListCons(w: string, os: seq<Operand>)
    requires os != []
    ensures ListText([Whole(w)] + os) == w + (", " + ListText(os))
  {
    var all := [Whole(w)] + os;
    assert all[1..] == os && all[0] == Whole(w) && |all| > 1;
    CommaSpace(w, ListText(os));
    assert ListText(all) == w + ("," + (" " + ListText(os)));
  }

  lemma {:induction false} SnocLength(os: seq<Operand>, w: string)
    ensures |ListText(os + [Whole(w)])| == |w| + if os == [] then 0 else |ListText(os)| + 2
  {
    if os == [] {
      assert os + [Whole(w)] == [Whole(w)];
    } else {
      hide ListText;
      ListSnoc(os, w);
    }
  }

  lemma {:induction false} ConsLength(w: string, os: seq<Operand>)
    ensures |ListText([Whole(w)] + os)| == |w| + if os == [] then 0 else |ListText(os)| + 2
  {
    if os == [] {
      assert [Whole(w)] + os == [Whole(w)];
    } else {
      hide ListText;
      ListCons(w, os);
    }
  }

  /** Two operands that can each be moved from the end of a list to its beginning are equal. */
  lemma {:induction false} SidesCoincide(before: seq<Operand>, u: string, v: string, after: seq<Operand>)
    requires GoodList(before) && before + after != [] && Solid(u, 0) && Solid(v, 0)
    requires ListText([Whole(v)] + after) == ListText(before + [Whole(v)])
    requires ListText([Whole(u)] + after) == ListText(before + [Whole(u)])
    ensures u == v
  {
    hide ListText, Solid;
    SnocLength(before, u);
    ConsLength(u, after);
    if before == [] || after == [] {
      assert false;
    } else {
      ListCons(u, after);
      ListCons(v, after);
      ListSnoc(before, u);
      ListSnoc(before, v);
      ListBalanced(before);
      hide *;
      MovedPiece(ListText(before), u, ListText(after));
      MovedPiece(ListText(before), v, ListText(after));
    }
  }

  // ----- what the swap makes of a list -----

  function Before(os: seq<Operand>, b: nat): string
    requires b < |os| && os[b].Bare?
  {
    ListText(Left(os, b))
  }

  function After(os: seq<Operand>, b: nat): string
    requires b < |os| && os[b].Bare?
  {
    ListText(Right(os, b))
  }

  ghost predicate Mishandled(os: seq<Operand>) {
    exists b: nat :: OnlyBare(os, b) && os[b].op in COMMUTATIVE && Before(os, b) != After(os, b)
  }

  /** With exactly one known bare operator, the scan takes the whole list for one infix. */
  lemma {:induction false} ListScan(os: seq<Operand>, b: nat)
    requires GoodList(os) && OnlyBare(os, b)
    ensures ListText(os) == Infix(Before(os, b), os[b].op, After(os, b))
    ensures TopOps(Infix(Before(os, b), os[b].op, After(os, b)), 0, 0) == [Found(|Before(os, b)|, os[b].op)]
    ensures TopOps(Infix(After(os, b), os[b].op, Before(os, b)), 0, 0) == [Found(|After(os, b)|, os[b].op)]
  {
    SplitAt(os, b);
    OnlyParts(os, b);
    SidesGood(os, b);
    hide TopOps, GoodList, Unseen, ListText;
    ScanAround(Left(os, b), os[b].op, Right(os, b));
    ScanAround(Right(os, b), os[b].op, Left(os, b));
  }

  /** Then everything before the operator and everything after it change places, if it is commutative. */
  lemma {:induction false} OneBareSwaps(os: seq<Operand>, b: nat)
    requires GoodList(os) && OnlyBare(os, b)
    ensures Swapped(ListText(os)) ==
            if os[b].op in COMMUTATIVE then Infix(After(os, b), os[b].op, Before(os, b)) else ListText(os)
  {
    hide GoodList, TopOps, Infix, Swapped;
    ListScan(os, b);
    SwapsAround(Before(os, b), os[b].op, After(os, b));
  }

  /** Equal texts with the only operator in the same place have equal sides. */
  lemma {:induction false} SameSides(l: string, op: string, r: string, l': string, r': string)
    requires TopOps(Infix(l, op, r), 0, 0) == [Found(|l|, op)] && TopOps(Infix(l', op, r'), 0, 0) == [Found(|l'|, op)]
    requires Infix(l, op, r) == Infix(l', op, r')
    ensures l == l' && r == r'
  {
    hide TopOps;
    assert [Found(|l|, op)][0] == [Found(|l'|, op)][0];
    var s := Infix(l, op, r);
    assert s[..|l|] == l && s[|l|..][|op| + 2..] == r;
    assert s[..|l|] == l' && s[|l|..][|op| + 2..] == r';
  }

  lemma OnlyParts(os: seq<Operand>, b: nat)
    requires b < |os| && Seen(os[b])
    ensures OnlyBare(os, b) <==> Unseen(os[..b]) && Unseen(os[b + 1..])
  {
    if OnlyBare(os, b) {
    } else {
      var i :| 0 <= i < |os| && Seen(os[i]) && i != b;
      if i < b {
        assert os[..b][i] == os[i];
      } else {
        assert os[b + 1..][i - b - 1] == os[i];
      }
    }
  }

  /** Several known bare operators: the list is left alone. */
  lemma {:induction false} SeveralKept(os: seq<Operand>, b: nat)
    requires GoodList(os) && b < |os| && Seen(os[b]) && Unseen(os[..b]) && !Unseen(os[b + 1..])
    ensures Swapped(ListText(os)) == ListText(os)
  {
    var left, op, right := Left(os, b), os[b].op, Right(os, b);
    assert op in BIN_OPS && left != [];
    hide *;
    SidesGood(os, b);
    SplitAt(os, b);
    SeveralSplit(left, op, right);
  }

  lemma {:induction false} SeveralSplit(left: seq<Operand>, op: string, right: seq<Operand>)
    requires left != [] && GoodList(left) && Unseen(left) && op in BIN_OPS && GoodList(right) && !Unseen(right)
    ensures Swapped(Infix(ListText(left), op, ListText(right))) == Infix(ListText(left), op, ListText(right))
  {
    hide *;
    var at := |ListText(left)| + 1 + |op|;
    ScanUpTo(left, op, ListText(right));
    SeenFound(right, at);
    SwapSeveral(Infix(ListText(left), op, ListText(right)), Found(|ListText(left)|, op), TopOps(" " + ListText(right), 0, at));
  }

  lemma SwapSeveral(s: string, f: Found, more: seq<Found>)
    requires TopOps(s, 0, 0) == [f] + more && more != []
    ensures Swapped(s) == s
  {
    hide TopOps;
  }

  /** No bare operator, or several: the list is left alone. */
  lemma {:induction false} OthersKept(os: seq<Operand>)
    requires GoodList(os) && forall b: nat :: !OnlyBare(os, b)
    ensures Swapped(ListText(os)) == ListText(os)
  {
    if os == [] {
    } else if Unseen(os) {
      hide *;
      NothingAfter(os, 0);
      SwapNothing(ListText(os));
    } else {
      var b := FirstSeen(os);
      OnlyParts(os, b);
      SeveralKept(os, b);
    }
  }

  /** A list is changed exactly when one operand is a bare known infix, its operator is commutative and the
      text before the operator differs from the text after it; the list is then not the one with that
      operand exchanged in its place. */
  lemma {:induction false} MishandledIff(os: seq<Operand>)
    requires GoodList(os)
    ensures Swapped(ListText(os)) != ListText(os) <==> Mishandled(os)
  {
    if b: nat :| OnlyBare(os, b) {
      OneBareSwaps(os, b);
      ListScan(os, b);
      assert forall c: nat :: OnlyBare(os, c) ==> c == b;
      hide ListText, TopOps, GoodList, OnlyBare, Swapped;
      if Infix(After(os, b), os[b].op, Before(os, b)) == ListText(os) {
        SameSides(After(os, b), os[b].op, Before(os, b), Before(os, b), After(os, b));
      }
    } else {
      OthersKept(os);
    }
  }

  /** A changed list of two operands or more never becomes the list with that operand exchanged in place. */
  lemma {:induction false} NeverTheOperandAlone(os: seq<Operand>, b: nat)
    requires GoodList(os) && |os| > 1 && OnlyBare(os, b) && Swapped(ListText(os)) != ListText(os)
    ensures Swapped(ListText(os)) != ListText(os[b := Bare(os[b].v, os[b].op, os[b].u)])
  {
    var u, op, v := os[b].u, os[b].op, os[b].v;
    var os' := os[b := Bare(v, op, u)];
    ExchangedGood(os, b);
    OneBareSwaps(os, b);
    ListScan(os, b);
    ListScan(os', b);
    assert os'[..b] == os[..b] && os'[b + 1..] == os[b + 1..];
    assert os[b] in os;
    if Infix(After(os, b), op, Before(os, b)) == ListText(os') {
      SameSides(After(os, b), op, Before(os, b), Before(os', b), After(os', b));
      SidesCoincide(os[..b], u, v, os[b + 1..]);
    }
  }

  lemma {:induction false} ExchangedGood(os: seq<Operand>, b: nat)
    requires GoodList(os) && OnlyBare(os, b)
    ensures var os' := os[b := Bare(os[b].v, os[b].op, os[b].u)]; GoodList(os') && OnlyBare(os', b)
  {
    var os' := os[b := Bare(os[b].v, os[b].op, os[b].u)];
    assert os'[..b] == os[..b] && os'[b + 1..] == os[b + 1..];
    assert os[b] in os;
  }
}
