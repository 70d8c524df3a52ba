/** Swapping the operands of commutative operators by scanning parentheses in raw text. */
module Metamorphic {
  import opened Collections
  import opened Wrappers

  /** Longest first. */
  const BIN_OPS: seq<string> := ["===", "!==", "<=", ">=", "&&", "||", "+", "-", "*", "<", ">"]
  const COMMUTATIVE: seq<string> := ["+", "*", "===", "!==", "&&", "||"]

  // ----- matchParen -----

  function Shift(i: int): int {
    if i < 0 then -1 else i + 1
  }

  /** Position of the parenthesis that brings the depth to zero, or -1. */
  function CloseAt(s: string, depth: int): (j: int)
    ensures -1 <= j < |s|
    ensures j >= 0 ==> s[j] == ')'
  {
    if s == "" then -1
    else if s[0] == '(' then Shift(CloseAt(s[1..], depth + 1))
    else if s[0] == ')' then if depth == 1 then 0 else Shift(CloseAt(s[1..], depth - 1))
    else Shift(CloseAt(s[1..], depth))
  }

  method MatchParen(s: string, open: nat) returns (j: int)
    requires open < |s|
    ensures j == (var c := CloseAt(s[open..], 0); if c < 0 then -1 else open + c)
  {
    var depth := 0;
    for i := open to |s|
      invariant CloseAt(s[open..], 0) == (var c := CloseAt(s[i..], depth); if c < 0 then -1 else i - open + c)
    {
      assert s[i..][1..] == s[i + 1..];
      if s[i] == '(' {
        depth := depth + 1;
      } else if s[i] == ')' {
        depth := depth - 1;
        if depth == 0 {
          return i;
        }
      }
    }
    j := -1;
  }

  // ----- swapTopLevel -----

  function FirstOp(ops: seq<string>, t: string): Option<string> {
    if ops == [] then None
    else if ops[0] + " " <= t then Some(ops[0])
    else FirstOp(ops[1..], t)
  }

  /** The operator, if any, that starts `t` and is followed by a space. */
  function OpAfter(t: string): Option<string> {
    FirstOp(BIN_OPS, t)
  }

  /** An operator whose leading space is at `start`. */
  datatype Found = Found(start: nat, op: string)

  function TopOps(s: string, depth: int, at: nat): seq<Found> {
    if s == "" then []
    else if s[0] == '(' then TopOps(s[1..], depth + 1, at + 1)
    else if s[0] == ')' then TopOps(s[1..], depth - 1, at + 1)
    else if s[0] == ' ' && depth == 0 && OpAfter(s[1..]).Some? then
      [Found(at, OpAfter(s[1..]).value)] + TopOps(s[1..], depth, at + 1)
    else TopOps(s[1..], depth, at + 1)
  }

  lemma {:induction false} TopOpsPlaces(s: string, depth: int, at: nat)
    ensures forall f :: f in TopOps(s, depth, at) ==>
              at <= f.start < at + |s| && s[f.start - at] == ' ' && f.op + " " <= s[f.start - at + 1..]
  {
    if s != "" {
      var d := if s[0] == '(' then depth + 1 else if s[0] == ')' then depth - 1 else depth;
      TopOpsPlaces(s[1..], d, at + 1);
      FirstOpStarts(BIN_OPS, s[1..]);
      forall f | f in TopOps(s[1..], d, at + 1)
        ensures at <= f.start < at + |s| && s[f.start - at] == ' ' && f.op + " " <= s[f.start - at + 1..]
      {
        assert s[1..][f.start - at - 1 + 1..] == s[f.start - at + 1..];
      }
    }
  }

  lemma {:induction false} FirstOpStarts(ops: seq<string>, t: string)
    ensures FirstOp(ops, t).Some? ==> FirstOp(ops, t).value in ops && FirstOp(ops, t).value + " " <= t
  {
    if ops != [] && !(ops[0] + " " <= t) {
      FirstOpStarts(ops[1..], t);
    }
  }

  function Swapped(inner: string): string {
    var found := TopOps(inner, 0, 0);
    if |found| != 1 || found[0].op !in COMMUTATIVE then inner
    else
      TopOpsPlaces(inner, 0, 0);
      var f := found[0];
      inner[f.start + |f.op| + 2..] + " " + f.op + " " + inner[..f.start]
  }

  method SwapTopLevel(inner: string) returns (r: string)
    ensures r == Swapped(inner)
  {
    var depth := 0;
    var found: seq<Found> := [];
    for i := 0 to |inner|
      invariant found + TopOps(inner[i..], depth, i) == TopOps(inner, 0, 0)
    {
      assert inner[i..][1..] == inner[i + 1..];
      if inner[i] == '(' {
        depth := depth + 1;
      } else if inner[i] == ')' {
        depth := depth - 1;
      } else if inner[i] == ' ' && depth == 0 {
        var op := OpAfter(inner[i + 1..]);
        if op.Some? {
          found := found + [Found(i, op.value)];
        }
      }
    }
    if |found| != 1 {
      return inner;
    }
    var f := found[0];
    if f.op !in COMMUTATIVE {
      return inner;
    }
    TopOpsPlaces(inner, 0, 0);
    assert f in TopOps(inner, 0, 0);
    var left := inner[..f.start];
    var right := inner[f.start + |f.op| + 2..];
    r := right + " " + f.op + " " + left;
  }

  // ----- reorderParens -----

  function Group(w: string): string {
    "(" + w + ")"
  }

  function Reordered(s: string): string {
    if s == "" then ""
    else if s[0] == '(' then
      var j := CloseAt(s, 0);
      if j < 1 then s
      else Group(Swapped(Reordered(s[1..j]))) + Reordered(s[j + 1..])
    else [s[0]] + Reordered(s[1..])
  }

  lemma ReorderAtGroup(s: string, i: nat, j: nat)
    requires i < j < |s| && s[i] == '(' && CloseAt(s[i..], 0) == j - i
    ensures Reordered(s[i..]) == Group(Swapped(Reordered(s[i + 1..j]))) + Reordered(s[j + 1..])
  {
    assert s[i..][1..j - i] == s[i + 1..j] && s[i..][j - i + 1..] == s[j + 1..];
  }

  lemma ReorderUnclosed(s: string)
    requires s != "" && s[0] == '(' && CloseAt(s, 0) < 0
    ensures Reordered(s) == s
  {
  }

  lemma ReorderAtChar(s: string, i: nat)
    requires i < |s| && s[i] != '('
    ensures Reordered(s[i..]) == [s[i]] + Reordered(s[i + 1..])
  {
    assert s[i..][1..] == s[i + 1..];
  }

  method ReorderParens(s: string) returns (out: string)
    ensures out == Reordered(s)
    decreases |s|
  {
    hide Reordered, Swapped;
    out := "";
    var i := 0;
    assert s[0..] == s;
    while i < |s|
      invariant 0 <= i <= |s|
      invariant out + Reordered(s[i..]) == Reordered(s)
    {
      if s[i] == '(' {
        var j := MatchParen(s, i);
        if j == -1 {
          ReorderUnclosed(s[i..]);
          return out + s[i..];
        }
        var inner := ReorderParens(s[i + 1..j]);
        var swapped := SwapTopLevel(inner);
        ReorderAtGroup(s, i, j);
        out := out + Group(swapped);
        i := j + 1;
      } else {
        ReorderAtChar(s, i);
        out := out + [s[i]];
        i := i + 1;
      }
    }
    ReorderEmpty();
    assert s[i..] == "";
  }

  // ----- on every string: a permutation -----

  lemma CutAround(inner: string, start: nat, op: string)
    requires start < |inner| && inner[start] == ' ' && op + " " <= inner[start + 1..]
    ensures inner == inner[..start] + (" " + op + " ") + inner[start + |op| + 2..]
  {
    var rest := inner[start + 1..];
    assert rest == (op + " ") + rest[|op| + 1..];
    assert rest[|op| + 1..] == inner[start + |op| + 2..];
    assert inner == inner[..start] + ([' '] + rest);
  }

  lemma Regroup(a: string, op: string, b: string)
    ensures a + " " + op + " " + b == a + (" " + op + " ") + b
  {
  }

  /** Either nothing moves, or the text before the operator and the text after it change places. */
  lemma SwapParts(inner: string) returns (left: string, mid: string, right: string)
    ensures inner == left + mid + right
    ensures Swapped(inner) == inner || Swapped(inner) == right + mid + left
  {
    hide TopOps;
    var found := TopOps(inner, 0, 0);
    if |found| == 1 && found[0].op in COMMUTATIVE {
      TopOpsPlaces(inner, 0, 0);
      var f := found[0];
      assert f in found;
      left, mid, right := inner[..f.start], " " + f.op + " ", inner[f.start + |f.op| + 2..];
      CutAround(inner, f.start, f.op);
      Regroup(right, f.op, left);
    } else {
      left, mid, right := inner, "", "";
    }
  }

  lemma SwapPermutes(inner: string)
    ensures multiset(Swapped(inner)) == multiset(inner)
  {
    var left, mid, right := SwapParts(inner);
    assert multiset(left + mid + right) == multiset(right + mid + left);
  }

  /** On every string at all the transform only moves characters around. */
  lemma {:induction false} ReorderPermutes(s: string)
    ensures multiset(Reordered(s)) == multiset(s) && |Reordered(s)| == |s|
    decreases |s|
  {
    hide Swapped;
    if s != "" {
      if s[0] == '(' {
        var j := CloseAt(s, 0);
        if j >= 1 {
          var inner, rest := s[1..j], s[j + 1..];
          ReorderPermutes(inner);
          ReorderPermutes(rest);
          SwapPermutes(Reordered(inner));
          SameGroup(inner, Swapped(Reordered(inner)), rest, Reordered(rest));
          CutGroup(s, j);
        }
      } else {
        ReorderPermutes(s[1..]);
        SameHead(s, Reordered(s[1..]));
      }
    }
    SameSize(s, Reordered(s));
  }

  lemma CutGroup(s: string, j: int)
    requires 1 <= j < |s| && s[0] == '(' && s[j] == ')'
    ensures s == Group(s[1..j]) + s[j + 1..]
  {
  }

  lemma SameHead(s: string, b: string)
    requires s != "" && multiset(s[1..]) == multiset(b)
    ensures multiset(s) == multiset([s[0]] + b)
  {
    assert s == [s[0]] + s[1..];
  }

  lemma SameGroup(a: string, b: string, c: string, d: string)
    requires multiset(a) == multiset(b) && multiset(c) == multiset(d)
    ensures multiset(Group(a) + c) == multiset(Group(b) + d)
  {
  }

  lemma SameSize(a: string, b: string)
    ensures multiset(a) == multiset(b) ==> |a| == |b|
  {
    assert |multiset(a)| == |a| && |multiset(b)| == |b|;
  }

  // ----- fully parenthesised expressions -----

  /** `fn` is the word that stands before the group: `assert(l === r)`, and nothing before `(l + r)`. */
  datatype Expr =
    | Atom(text: string)
    | Bin(fn: string, op: string, l: Expr, r: Expr)
    | Unary(uop: string, e: Expr)
    | Call(fn: string, args: seq<Expr>)
    | Ternary(c: Expr, a: Expr, b: Expr)

  function Infix(l: string, op: string, r: string): string {
    l + (" " + op + " ") + r
  }

  function Choice(c: string, a: string, b: string): string {
    c + " ? " + a + " : " + b
  }

  function Print(e: Expr): string {
    match e
    case Atom(t) => t
    case Bin(f, op, l, r) => f + Group(Infix(Print(l), op, Print(r)))
    case Unary(op, x) => op + Group(Print(x))
    case Call(f, args) => f + Group(Join(args))
    case Ternary(c, a, b) => Group(Choice(Print(c), Print(a), Print(b)))
  }

  function Join(args: seq<Expr>): string {
    if args == [] then ""
    else if |args| == 1 then Print(args[0])
    else Print(args[0]) + ", " + Join(args[1..])
  }

  /** A token without spaces, commas or parentheses. */
  predicate Word(w: string) {
    forall i :: 0 <= i < |w| ==> w[i] != ' ' && w[i] != ',' && w[i] != '(' && w[i] != ')'
  }

  predicate WellFormed(e: Expr) {
    match e
    case Atom(t) => t != "" && Word(t) && t !in BIN_OPS
    case Bin(f, op, l, r) => Word(f) && Word(op) && op != "" && WellFormed(l) && WellFormed(r)
    case Unary(op, x) => Word(op) && WellFormed(x)
    case Call(f, args) => Word(f) && forall x :: x in args ==> WellFormed(x)
    case Ternary(c, a, b) => WellFormed(c) && WellFormed(a) && WellFormed(b)
  }

  /** The rewrite on trees: every commutative node exchanges its operands. */
  function Swap(e: Expr): Expr {
    match e
    case Atom(_) => e
    case Bin(f, op, l, r) => if op in COMMUTATIVE then Bin(f, op, Swap(r), Swap(l)) else Bin(f, op, Swap(l), Swap(r))
    case Unary(op, x) => Unary(op, Swap(x))
    case Call(f, args) => Call(f, SwapAll(args))
    case Ternary(c, a, b) => Ternary(Swap(c), Swap(a), Swap(b))
  }

  function SwapAll(args: seq<Expr>): (r: seq<Expr>)
    ensures |r| == |args|
  {
    if args == [] then [] else [Swap(args[0])] + SwapAll(args[1..])
  }

  // ----- scanning printed text -----

  /** Read from depth d, the text never closes more than it opened, and ends at depth 0. */
  predicate Balanced(w: string, d: nat) {
    if w == "" then d == 0
    else if w[0] == '(' then Balanced(w[1..], d + 1)
    else if w[0] == ')' then d >= 1 && Balanced(w[1..], d - 1)
    else Balanced(w[1..], d)
  }

  /** Balanced, and without a space at depth 0. */
  predicate Solid(w: string, d: nat) {
    if w == "" then d == 0
    else if w[0] == '(' then Solid(w[1..], d + 1)
    else if w[0] == ')' then d >= 1 && Solid(w[1..], d - 1)
    else (w[0] == ' ' ==> d > 0) && Solid(w[1..], d)
  }

  lemma {:induction false} SolidBalanced(w: string, d: nat)
    requires Solid(w, d)
    ensures Balanced(w, d)
  {
    if w != "" {
      SolidBalanced(w[1..], if w[0] == '(' then d + 1 else if w[0] == ')' then d - 1 else d);
    }
  }

  lemma {:induction false} BalancedConcat(u: string, v: string, d: nat)
    requires Balanced(u, d) && Balanced(v, 0)
    ensures Balanced(u + v, d)
  {
    if u == "" {
      assert u + v == v;
    } else {
      assert (u + v)[1..] == u[1..] + v;
      BalancedConcat(u[1..], v, if u[0] == '(' then d + 1 else if u[0] == ')' then d - 1 else d);
    }
  }

  lemma {:induction false} SolidConcat(u: string, v: string, d: nat)
    requires Solid(u, d) && Solid(v, 0)
    ensures Solid(u + v, d)
  {
    if u == "" {
      assert u + v == v;
    } else {
      assert (u + v)[1..] == u[1..] + v;
      SolidConcat(u[1..], v, if u[0] == '(' then d + 1 else if u[0] == ')' then d - 1 else d);
    }
  }

  lemma {:induction false} ClosedSolid(w: string, d: nat)
    requires Balanced(w, d)
    ensures Solid(w + ")", d + 1)
  {
    if w == "" {
      assert w + ")" == ")" && ")"[1..] == "";
    } else {
      assert (w + ")")[1..] == w[1..] + ")";
      ClosedSolid(w[1..], if w[0] == '(' then d + 1 else if w[0] == ')' then d - 1 else d);
    }
  }

  lemma GroupSolid(w: string)
    requires Balanced(w, 0)
    ensures Solid(Group(w), 0)
  {
    ClosedSolid(w, 0);
    assert ("(" + w + ")")[1..] == w + ")";
  }

  lemma {:induction false} WordSolid(w: string)
    requires Word(w)
    ensures Solid(w, 0)
  {
    if w != "" {
      WordSolid(w[1..]);
    }
  }

  lemma {:induction false} PlainBalanced(w: string)
    requires forall i :: 0 <= i < |w| ==> w[i] != '(' && w[i] != ')'
    ensures Balanced(w, 0)
  {
    if w != "" {
      PlainBalanced(w[1..]);
    }
  }

  /** The opening parenthesis before balanced text is matched by the closing one after it. */
  lemma {:induction false} CloseFinds(w: string, rest: string, d: nat)
    requires Balanced(w, d)
    ensures CloseAt(w + ")" + rest, d + 1) == |w|
  {
    var s := w + ")" + rest;
    if w != "" {
      assert s[1..] == w[1..] + ")" + rest;
      CloseFinds(w[1..], rest, if w[0] == '(' then d + 1 else if w[0] == ')' then d - 1 else d);
    }
  }

  /** Solid text holds no top-level operator. */
  lemma {:induction false} SkipSolid(w: string, rest: string, d: nat, at: nat)
    requires Solid(w, d)
    ensures TopOps(w + rest, d, at) == TopOps(rest, 0, at + |w|)
  {
    if w == "" {
      assert w + rest == rest;
    } else {
      assert (w + rest)[1..] == w[1..] + rest;
      SkipSolid(w[1..], rest, if w[0] == '(' then d + 1 else if w[0] == ')' then d - 1 else d, at + 1);
    }
  }

  lemma {:induction false} SolidNoSpace(w: string, n: nat)
    requires Solid(w, 0) && n < |w| && forall i :: 0 <= i < n ==> w[i] != '(' && w[i] != ')'
    ensures w[n] != ' '
  {
    if n > 0 {
      SolidNoSpace(w[1..], n - 1);
    }
  }

  lemma OpsAreWords()
    ensures forall op :: op in BIN_OPS ==> Word(op) && op != ""
  {
  }

  lemma WordNotHead(op: string, w: string, rest: string)
    requires Word(op) && op != w
    requires Solid(w, 0) && w != "" && (rest == "" || rest[0] == ' ' || rest[0] == ',')
    ensures !(op + " " <= w + rest)
  {
    var t, o := w + rest, op + " ";
    if |op| < |w| {
      if forall i :: 0 <= i < |op| ==> w[i] == op[i] {
        SolidNoSpace(w, |op|);
        assert o[|op|] != t[|op|];
      } else {
        var i :| 0 <= i < |op| && w[i] != op[i];
        assert o[i] != t[i];
      }
    } else if |op| == |w| {
      var i :| 0 <= i < |op| && w[i] != op[i];
      assert o[i] != t[i];
    } else if rest != "" {
      assert o[|w|] == op[|w|] && t[|w|] == rest[0];
    }
  }

  /** No operator followed by a space starts a solid text that is not itself an operator. */
  lemma {:induction false} NoOpHead(ops: seq<string>, w: string, rest: string)
    requires forall op :: op in ops ==> Word(op) && op != w
    requires Solid(w, 0) && w != "" && (rest == "" || rest[0] == ' ' || rest[0] == ',')
    ensures FirstOp(ops, w + rest) == None
  {
    if ops != [] {
      assert ops[0] in ops;
      WordNotHead(ops[0], w, rest);
      NoOpHead(ops[1..], w, rest);
    }
  }

  /** Followed by a space, an operator is recognised as itself. */
  lemma {:induction false} OpRecognised(ops: seq<string>, op: string, rest: string)
    requires op in ops && forall o :: o in ops ==> Word(o)
    ensures FirstOp(ops, op + " " + rest) == Some(op)
  {
    var t := op + " " + rest;
    var o := ops[0];
    assert o in ops && Word(o) && Word(op);
    if o + " " <= t {
      assert forall i :: 0 <= i < |o| ==> o[i] == (o + " ")[i] == t[i];
      assert t[|o|] == (o + " ")[|o|] == ' ' && t[|op|] == ' ';
      assert forall i :: 0 <= i < |op| ==> op[i] == t[i];
      assert |o| == |op| && o == op;
    } else {
      assert op + " " <= t;
      OpRecognised(ops[1..], op, rest);
    }
  }

  lemma {:induction false} PrintSolid(e: Expr)
    requires WellFormed(e)
    ensures Solid(Print(e), 0) && Print(e) != "" && Print(e) !in BIN_OPS
  {
    match e
    case Atom(t) => WordSolid(t);
    case Bin(f, op, l, r) =>
      PrintSolid(l);
      PrintSolid(r);
      Joined3(Print(l), " " + op + " ", Print(r));
      GroupSolid(Infix(Print(l), op, Print(r)));
      WordSolid(f);
      SolidConcat(f, Group(Infix(Print(l), op, Print(r))), 0);
      NotAnOp(Print(e), |f|);
    case Unary(op, x) =>
      PrintSolid(x);
      SolidBalanced(Print(x), 0);
      GroupSolid(Print(x));
      WordSolid(op);
      SolidConcat(op, Group(Print(x)), 0);
      NotAnOp(Print(e), |op|);
    case Call(f, args) =>
      JoinBalanced(args);
      GroupSolid(Join(args));
      WordSolid(f);
      SolidConcat(f, Group(Join(args)), 0);
      NotAnOp(Print(e), |f|);
    case Ternary(c, a, b) =>
      PrintSolid(c);
      PrintSolid(a);
      PrintSolid(b);
      ChoiceBalanced(Print(c), Print(a), Print(b));
      GroupSolid(Choice(Print(c), Print(a), Print(b)));
      NotAnOp(Print(e), 0);
  }

  lemma NotAnOp(s: string, i: nat)
    requires i < |s| && s[i] == '('
    ensures s !in BIN_OPS
  {
    OpsAreWords();
  }

  lemma Joined3(u: string, mid: string, v: string)
    requires Solid(u, 0) && Solid(v, 0)
    requires forall i :: 0 <= i < |mid| ==> mid[i] != '(' && mid[i] != ')'
    ensures Balanced(u + mid + v, 0)
  {
    SolidBalanced(u, 0);
    SolidBalanced(v, 0);
    PlainBalanced(mid);
    BalancedConcat(u, mid, 0);
    BalancedConcat(u + mid, v, 0);
  }

  lemma ChoiceBalanced(c: string, a: string, b: string)
    requires Solid(c, 0) && Solid(a, 0) && Solid(b, 0)
    ensures Balanced(Choice(c, a, b), 0)
  {
    Joined3(c, " ? ", a);
    PlainBalanced(" : ");
    SolidBalanced(b, 0);
    BalancedConcat(c + " ? " + a, " : ", 0);
    BalancedConcat(c + " ? " + a + " : ", b, 0);
  }

  lemma {:induction false} JoinBalanced(args: seq<Expr>)
    requires forall x :: x in args ==> WellFormed(x)
    ensures Balanced(Join(args), 0)
  {
    if |args| >= 1 {
      PrintSolid(args[0]);
      SolidBalanced(Print(args[0]), 0);
      if |args| > 1 {
        JoinBalanced(args[1..]);
        PlainBalanced(", ");
        BalancedConcat(Print(args[0]), ", ", 0);
        BalancedConcat(Print(args[0]) + ", ", Join(args[1..]), 0);
      }
    }
  }

  // ----- swapping printed groups -----

  lemma SpaceThenSolid(w: string, rest: string, at: nat)
    requires Solid(w, 0) && w != "" && w !in BIN_OPS && (rest == "" || rest[0] == ' ' || rest[0] == ',')
    ensures TopOps(" " + w + rest, 0, at) == TopOps(rest, 0, at + 1 + |w|)
  {
    hide TopOps, Solid, FirstOp;
    OpsAreWords();
    NoOpHead(BIN_OPS, w, rest);
    TopOpsSpace(w + rest, at);
    assert " " + w + rest == " " + (w + rest);
    SkipSolid(w, rest, 0, at + 1);
  }

  lemma OpAfterIs(op: string, rest: string)
    requires op in BIN_OPS
    ensures OpAfter(op + " " + rest) == Some(op)
  {
    hide FirstOp;
    OpsAreWords();
    OpRecognised(BIN_OPS, op, rest);
  }

  lemma TopOpsHere(op: string, t: string, at: nat)
    requires OpAfter(t) == Some(op)
    ensures TopOps(" " + t, 0, at) == [Found(at, op)] + TopOps(t, 0, at + 1)
  {
    hide OpAfter;
    assert (" " + t)[1..] == t;
  }

  lemma TopOpsSpace(t: string, at: nat)
    requires OpAfter(t) == None
    ensures TopOps(" " + t, 0, at) == TopOps(t, 0, at + 1)
  {
    hide OpAfter;
    assert (" " + t)[1..] == t;
  }

  lemma FindsOpHere(op: string, v: string, at: nat)
    requires op in BIN_OPS
    ensures TopOps(" " + (op + " " + v), 0, at) == [Found(at, op)] + TopOps(" " + v, 0, at + 1 + |op|)
  {
    hide TopOps, OpAfter, FirstOp, Solid;
    OpsAreWords();
    OpAfterIs(op, v);
    WordSolid(op);
    SkipSolid(op, " " + v, 0, at + 1);
    assert op + " " + v == op + (" " + v);
    TopOpsHere(op, op + " " + v, at);
  }

  lemma Flatten(u: string, op: string, v: string)
    ensures Infix(u, op, v) == u + (" " + (op + " " + v))
  {
  }

  /** The scan of `u op v` finds the operator and goes on into ` v`. */
  lemma FindsOp(u: string, op: string, v: string)
    requires Solid(u, 0) && op in BIN_OPS
    ensures TopOps(Infix(u, op, v), 0, 0) == [Found(|u|, op)] + TopOps(" " + v, 0, |u| + 1 + |op|)
  {
    hide *;
    var tail := " " + (op + " " + v);
    Flatten(u, op, v);
    SkipSolid(u, tail, 0, 0);
    FindsOpHere(op, v, |u|);
  }

  /** One commutative operator found: its two sides change places. */
  lemma SwapsAround(u: string, op: string, v: string)
    requires op in BIN_OPS && TopOps(Infix(u, op, v), 0, 0) == [Found(|u|, op)]
    ensures Swapped(Infix(u, op, v)) ==
            if op in COMMUTATIVE then Infix(v, op, u) else Infix(u, op, v)
  {
    var inner := Infix(u, op, v);
    assert inner[..|u|] == u && inner[|u| + |op| + 2..] == v;
    Regroup(v, op, u);
  }

  /** Text without a top-level operator is left alone. */
  lemma SwapNothing(w: string)
    requires TopOps(w, 0, 0) == []
    ensures Swapped(w) == w
  {
  }

  /** Between solid operands, a word that the scan does not know is passed over. */
  lemma UnknownOperator(u: string, op: string, v: string)
    requires Solid(u, 0) && Solid(v, 0) && v != "" && v !in BIN_OPS
    requires Word(op) && op != "" && op !in BIN_OPS
    ensures TopOps(Infix(u, op, v), 0, 0) == []
  {
    hide *;
    var tail := " " + (op + " " + v);
    Flatten(u, op, v);
    SkipSolid(u, tail, 0, 0);
    WordSolid(op);
    assert tail == " " + op + (" " + v);
    SpaceThenSolid(op, " " + v, |u|);
    AppendNothing(" " + v);
    SpaceThenSolid(v, "", |u| + 1 + |op|);
    TopOpsEmpty();
  }

  /** At most one top-level operator: the operands change places if it is commutative. */
  lemma SwapBinary(u: string, op: string, v: string)
    requires Solid(u, 0) && Solid(v, 0) && v != "" && v !in BIN_OPS && Word(op) && op != ""
    ensures Swapped(Infix(u, op, v)) ==
            if op in COMMUTATIVE then Infix(v, op, u) else Infix(u, op, v)
  {
    if op in BIN_OPS {
      hide *;
      FindsOp(u, op, v);
      AppendNothing(" " + v);
      SpaceThenSolid(v, "", |u| + 1 + |op|);
      TopOpsEmpty();
      SwapsAround(u, op, v);
    } else {
      CommutativeKnown(op);
      hide *;
      UnknownOperator(u, op, v);
      SwapNothing(Infix(u, op, v));
    }
  }

  lemma CommutativeKnown(op: string)
    ensures op in COMMUTATIVE ==> op in BIN_OPS
  {
    assert BIN_OPS[0] == "===" && BIN_OPS[1] == "!==" && BIN_OPS[4] == "&&" && BIN_OPS[5] == "||";
    assert BIN_OPS[6] == "+" && BIN_OPS[8] == "*";
  }

  lemma {:induction false} JoinNoOps(args: seq<Expr>, at: nat)
    requires forall x :: x in args ==> WellFormed(x)
    ensures TopOps(Join(args), 0, at) == []
    ensures args != [] ==> TopOps(" " + Join(args), 0, at) == []
  {
    if args != [] {
      var w := Print(args[0]);
      PrintSolid(args[0]);
      hide Solid, Print, WellFormed, TopOps;
      TopOpsEmpty();
      if |args| == 1 {
        assert w + "" == w && " " + w + "" == " " + w;
        SkipSolid(w, "", 0, at);
        SpaceThenSolid(w, "", at);
      } else {
        var tail := " " + Join(args[1..]);
        JoinNoOps(args[1..], at + |w| + 1);
        JoinNoOps(args[1..], at + 1 + |w| + 1);
        CommaFirst(w, Join(args[1..]));
        SkipSolid(w, "," + tail, 0, at);
        TopOpsComma(tail, at + |w|);
        SpaceThenSolid(w, "," + tail, at);
        TopOpsComma(tail, at + 1 + |w|);
      }
    }
  }

  lemma TopOpsEmpty()
    ensures forall at: nat :: TopOps("", 0, at) == []
  {
  }

  lemma TopOpsComma(t: string, at: nat)
    ensures TopOps("," + t, 0, at) == TopOps(t, 0, at + 1)
  {
    assert ("," + t)[1..] == t;
  }

  lemma CommaFirst(w: string, t: string)
    ensures w + ", " + t == w + ("," + (" " + t))
    ensures " " + (w + ", " + t) == " " + w + ("," + (" " + t))
  {
  }

  lemma TernaryNoOps(c: string, a: string, b: string)
    requires Solid(c, 0) && Solid(a, 0) && Solid(b, 0)
    requires a != "" && b != "" && a !in BIN_OPS && b !in BIN_OPS
    ensures TopOps(Choice(c, a, b), 0, 0) == []
  {
    hide TopOps, Solid;
    TopOpsEmpty();
    var r2 := " : " + b;
    var r1 := " ? " + (a + r2);
    TernaryRight(c, a, b);
    SkipSolid(c, r1, 0, 0);
    MarkThenSolid('?', a, r2, |c|);
    MarkThenSolid(':', b, "", |c| + 3 + |a|);
  }

  lemma TernaryRight(c: string, a: string, b: string)
    ensures Choice(c, a, b) == c + (" ? " + (a + (" : " + b)))
    ensures " ? " == " " + ['?'] + " " && " : " == " " + [':'] + " " && b + "" == b
  {
  }

  /** A punctuation mark between spaces, then solid text. */
  lemma MarkThenSolid(mark: char, w: string, rest: string, at: nat)
    requires mark == '?' || mark == ':'
    requires Solid(w, 0) && w != "" && w !in BIN_OPS && (rest == "" || rest[0] == ' ' || rest[0] == ',')
    ensures TopOps(" " + [mark] + " " + (w + rest), 0, at) == TopOps(rest, 0, at + 3 + |w|)
  {
    var m, tail := [mark], " " + w + rest;
    assert Word(m);
    WordSolid(m);
    assert " " + m + " " + (w + rest) == " " + m + tail;
    SpaceThenSolid(m, tail, at);
    SpaceThenSolid(w, rest, at + 2);
  }

  // ----- the text transform is the tree rewrite -----

  lemma {:induction false} ReorderPlain(w: string, rest: string)
    requires forall i :: 0 <= i < |w| ==> w[i] != '('
    ensures Reordered(w + rest) == w + Reordered(rest)
  {
    if w == "" {
      assert w + rest == rest;
    } else {
      assert (w + rest)[1..] == w[1..] + rest;
      ReorderPlain(w[1..], rest);
      assert w == [w[0]] + w[1..];
    }
  }

  lemma ReorderGroup(w: string, rest: string)
    requires Balanced(w, 0)
    ensures Reordered(Group(w) + rest) == Group(Swapped(Reordered(w))) + Reordered(rest)
  {
    var s := Group(w) + rest;
    assert s[1..] == w + ")" + rest;
    CloseFinds(w, rest, 0);
    assert CloseAt(s, 0) == |w| + 1;
    assert s[1..|w| + 1] == w && s[|w| + 2..] == rest;
  }

  lemma WordPlain(w: string)
    requires Word(w)
    ensures forall i :: 0 <= i < |w| ==> w[i] != '('
  {
  }

  lemma ReorderPrefixedGroup(word: string, w: string, rest: string)
    requires Word(word) && Balanced(w, 0)
    ensures Reordered(word + Group(w) + rest) == word + Group(Swapped(Reordered(w))) + Reordered(rest)
  {
    hide *;
    Associate(word, Group(w), rest);
    Associate(word, Group(Swapped(Reordered(w))), Reordered(rest));
    WordPlain(word);
    ReorderPlain(word, Group(w) + rest);
    ReorderGroup(w, rest);
  }

  lemma {:induction false} SwapWellFormed(e: Expr)
    requires WellFormed(e)
    ensures WellFormed(Swap(e))
  {
    match e
    case Atom(_) =>
    case Bin(_, _, l, r) => SwapWellFormed(l); SwapWellFormed(r);
    case Unary(_, x) => SwapWellFormed(x);
    case Call(_, args) => SwapAllWellFormed(args);
    case Ternary(c, a, b) => SwapWellFormed(c); SwapWellFormed(a); SwapWellFormed(b);
  }

  lemma {:induction false} SwapAllWellFormed(args: seq<Expr>)
    requires forall x :: x in args ==> WellFormed(x)
    ensures forall x :: x in SwapAll(args) ==> WellFormed(x)
  {
    if args != [] {
      SwapWellFormed(args[0]);
      SwapAllWellFormed(args[1..]);
    }
  }

  /** On printed text, the scan does exactly what the tree rewrite does. */
  lemma {:induction false} ReorderPrinted(e: Expr, rest: string)
    requires WellFormed(e)
    ensures Reordered(Print(e) + rest) == Print(Swap(e)) + Reordered(rest)
    decreases e, 1
  {
    match e
    case Atom(t) => ReorderPlain(t, rest);
    case Bin(f, op, l, r) => ReorderBinary(f, op, l, r, rest);
    case Unary(op, x) =>
      PrintSolid(x);
      SolidBalanced(Print(x), 0);
      ReorderPrefixedGroup(op, Print(x), rest);
      ReorderPrinted(x, "");
      assert Print(x) + "" == Print(x);
      SwapWellFormed(x);
      PrintSolid(Swap(x));
      assert Print(Swap(x)) + "" == Print(Swap(x));
      SkipSolid(Print(Swap(x)), "", 0, 0);
      SwapNothing(Print(Swap(x)));
    case Call(f, args) =>
      JoinBalanced(args);
      ReorderPrefixedGroup(f, Join(args), rest);
      ReorderJoined(args);
      SwapAllWellFormed(args);
      JoinNoOps(SwapAll(args), 0);
      SwapNothing(Join(SwapAll(args)));
    case Ternary(c, a, b) => ReorderTernary(c, a, b, rest);
  }

  lemma {:induction false} ReorderBinary(f: string, op: string, l: Expr, r: Expr, rest: string)
    requires WellFormed(Bin(f, op, l, r))
    ensures Reordered(Print(Bin(f, op, l, r)) + rest) == Print(Swap(Bin(f, op, l, r))) + Reordered(rest)
    decreases Bin(f, op, l, r), 0
  {
    var mid, u, v := " " + op + " ", Print(l), Print(r);
    var u', v' := Print(Swap(l)), Print(Swap(r));
    SwapWellFormed(l);
    SwapWellFormed(r);
    PrintSolid(l);
    PrintSolid(r);
    PrintSolid(Swap(l));
    PrintSolid(Swap(r));
    Joined3(u, mid, v);
    ReorderPrefixedGroup(f, Infix(u, op, v), rest);
    SwapBinary(u', op, v');
    ReorderPrinted(l, mid + v);
    ReorderPrinted(r, "");
    assert Print(Swap(Bin(f, op, l, r))) == f + Group(if op in COMMUTATIVE then Infix(v', op, u') else Infix(u', op, v'));
    hide *;
    ReorderEmpty();
    AppendNothing(v);
    AppendNothing(v');
    ReorderPlain(mid, v);
    InfixIs(u, op, v);
    InfixIs(u', op, v');
  }

  lemma InfixIs(u: string, op: string, v: string)
    ensures Infix(u, op, v) == u + ((" " + op + " ") + v)
  {
  }

  lemma AppendNothing(v: string)
    ensures v + "" == v
  {
  }

  lemma ReorderChoice(pc: string, pa: string, pb: string, qc: string, qa: string, qb: string)
    requires Reordered(pc + (" ? " + (pa + (" : " + pb)))) == qc + Reordered(" ? " + (pa + (" : " + pb)))
    requires Reordered(pa + (" : " + pb)) == qa + Reordered(" : " + pb)
    requires Reordered(pb + "") == qb + Reordered("")
    ensures Reordered(Choice(pc, pa, pb)) == Choice(qc, qa, qb)
  {
    hide *;
    ReorderEmpty();
    TernaryRight(pc, pa, pb);
    TernaryRight(qc, qa, qb);
    ReorderPlain(" ? ", pa + (" : " + pb));
    ReorderPlain(" : ", pb);
    AppendNothing(qb);
  }

  lemma {:induction false} ReorderTernary(c: Expr, a: Expr, b: Expr, rest: string)
    requires WellFormed(Ternary(c, a, b))
    ensures Reordered(Print(Ternary(c, a, b)) + rest) == Print(Swap(Ternary(c, a, b))) + Reordered(rest)
    decreases Ternary(c, a, b), 0
  {
    var pc, pa, pb := Print(c), Print(a), Print(b);
    var qc, qa, qb := Print(Swap(c)), Print(Swap(a)), Print(Swap(b));
    TernaryBalanced(c, a, b);
    ReorderGroup(Choice(pc, pa, pb), rest);
    SwapWellFormed(c);
    SwapWellFormed(a);
    SwapWellFormed(b);
    PrintSolid(Swap(c));
    PrintSolid(Swap(a));
    PrintSolid(Swap(b));
    TernaryNoOps(qc, qa, qb);
    SwapNothing(Choice(qc, qa, qb));
    hide Reordered, Swapped, Solid, WellFormed, Word, Balanced, TopOps, Choice, Group;
    ReorderPrinted(c, " ? " + (pa + (" : " + pb)));
    ReorderPrinted(a, " : " + pb);
    ReorderPrinted(b, "");
    ReorderChoice(pc, pa, pb, qc, qa, qb);
    assert Print(Ternary(c, a, b)) == Group(Choice(pc, pa, pb));
    assert Print(Swap(Ternary(c, a, b))) == Group(Choice(qc, qa, qb));
  }

  lemma ReorderEmpty()
    ensures Reordered("") == ""
  {
  }

  lemma TernaryBalanced(c: Expr, a: Expr, b: Expr)
    requires WellFormed(Ternary(c, a, b))
    ensures Balanced(Choice(Print(c), Print(a), Print(b)), 0)
  {
    PrintSolid(c);
    PrintSolid(a);
    PrintSolid(b);
    ChoiceBalanced(Print(c), Print(a), Print(b));
  }

  lemma {:induction false} ReorderJoined(args: seq<Expr>)
    requires forall x :: x in args ==> WellFormed(x)
    ensures Reordered(Join(args)) == Join(SwapAll(args))
    decreases args, 0
  {
    if |args| == 1 {
      assert Join(args) == Print(args[0]) + "";
      ReorderPrinted(args[0], "");
      assert SwapAll(args) == [Swap(args[0])];
    } else if |args| > 1 {
      assert Join(args) == Print(args[0]) + (", " + Join(args[1..]));
      ReorderPrinted(args[0], ", " + Join(args[1..]));
      ReorderPlain(", ", Join(args[1..]));
      ReorderJoined(args[1..]);
      assert SwapAll(args)[1..] == SwapAll(args[1..]);
    }
  }

  /** Applying the rewrite twice gives the tree back. */
  lemma {:induction false} SwapTwice(e: Expr)
    ensures Swap(Swap(e)) == e
  {
    match e
    case Atom(_) =>
    case Bin(_, _, l, r) => SwapTwice(l); SwapTwice(r);
    case Unary(_, x) => SwapTwice(x);
    case Call(_, args) => SwapAllTwice(args);
    case Ternary(c, a, b) => SwapTwice(c); SwapTwice(a); SwapTwice(b);
  }

  lemma {:induction false} SwapAllTwice(args: seq<Expr>)
    ensures SwapAll(SwapAll(args)) == args
  {
    if args != [] {
      SwapTwice(args[0]);
      SwapAllTwice(args[1..]);
      assert SwapAll(args)[1..] == SwapAll(args[1..]);
    }
  }

  // ----- whole sources -----

  /** Text without a parenthesis to open, a parameter list with the parentheses around it, or an expression. */
  datatype Segment = Plain(text: string) | Params(list: string) | Expression(e: Expr)

  function SegmentText(s: Segment): string {
    match s
    case Plain(t) => t
    case Params(list) => Group(list)
    case Expression(e) => Print(e)
  }

  function Source(segs: seq<Segment>): string {
    if segs == [] then "" else SegmentText(segs[0]) + Source(segs[1..])
  }

  function SwapSegment(s: Segment): Segment {
    if s.Expression? then Expression(Swap(s.e)) else s
  }

  function SwapSegments(segs: seq<Segment>): seq<Segment> {
    seq(|segs|, i requires 0 <= i < |segs| => SwapSegment(segs[i]))
  }

  predicate GoodSource(segs: seq<Segment>) {
    forall s :: s in segs ==> GoodSegment(s)
  }

  predicate GoodSegment(s: Segment) {
    match s
    case Plain(t) => forall i :: 0 <= i < |t| ==> t[i] != '('
    case Params(list) => (forall i :: 0 <= i < |list| ==> list[i] != '(' && list[i] != ')') && TopOps(list, 0, 0) == []
    case Expression(e) => WellFormed(e)
  }

  /** A parameter list is copied. */
  lemma ReorderParams(list: string, rest: string)
    requires GoodSegment(Params(list))
    ensures Reordered(Group(list) + rest) == Group(list) + Reordered(rest)
  {
    hide Reordered, TopOps, Swapped;
    PlainBalanced(list);
    ReorderGroup(list, rest);
    ReorderPlain(list, "");
    ReorderEmpty();
    AppendNothing(list);
    SwapNothing(list);
  }

  /** Source text whose parentheses all belong to fully parenthesised expressions and to parameter lists:
      each expression is rewritten, everything between is copied. */
  lemma {:induction false} ReorderSource(segs: seq<Segment>)
    requires GoodSource(segs)
    ensures Reordered(Source(segs)) == Source(SwapSegments(segs))
  {
    if segs != [] {
      ReorderSource(segs[1..]);
      assert SwapSegments(segs)[1..] == SwapSegments(segs[1..]);
      assert segs[0] in segs;
      match segs[0] {
        case Plain(t) => ReorderPlain(t, Source(segs[1..]));
        case Params(list) => ReorderParams(list, Source(segs[1..]));
        case Expression(e) => ReorderPrinted(e, Source(segs[1..]));
      }
    }
  }

  lemma {:induction false} SwapSegmentsTwice(segs: seq<Segment>)
    requires GoodSource(segs)
    ensures GoodSource(SwapSegments(segs)) && SwapSegments(SwapSegments(segs)) == segs
  {
    if segs != [] {
      SwapSegmentsTwice(segs[1..]);
      assert SwapSegments(segs)[1..] == SwapSegments(segs[1..]);
      assert segs[0] in segs;
      if segs[0].Expression? {
        SwapTwice(segs[0].e);
        SwapWellFormed(segs[0].e);
      }
    }
  }

  /** The transform undoes itself on such sources. */
  lemma ReorderTwice(segs: seq<Segment>)
    requires GoodSource(segs)
    ensures Reordered(Reordered(Source(segs))) == Source(segs)
  {
    ReorderSource(segs);
    SwapSegmentsTwice(segs);
    ReorderSource(SwapSegments(segs));
  }

  // ----- value preservation -----

  datatype Val = IntV(n: int) | BoolV(b: bool) | Err

  function EvalBin(op: string, x: Val, y: Val): Val {
    match (x, y)
    case (IntV(m), IntV(n)) =>
      if op == "+" then IntV(m + n)
      else if op == "-" then IntV(m - n)
      else if op == "*" then IntV(m * n)
      else if op == "===" then BoolV(m == n)
      else if op == "!==" then BoolV(m != n)
      else if op == "<" then BoolV(m < n)
      else if op == "<=" then BoolV(m <= n)
      else if op == ">" then BoolV(m > n)
      else if op == ">=" then BoolV(m >= n)
      else Err
    case (BoolV(p), BoolV(q)) =>
      if op == "===" then BoolV(p == q)
      else if op == "!==" then BoolV(p != q)
      else if op == "&&" then BoolV(p && q)
      else if op == "||" then BoolV(p || q)
      else Err
    case _ => Err
  }

  /** Atoms, unary operators, calls and the operators that the scan does not know mean whatever the
      environment says; operators are eager. */
  datatype Env = Env(
    atom: string -> Val,
    unary: (string, Val) -> Val,
    call: (string, seq<Val>) -> Val,
    other: (string, Val, Val) -> Val)

  function Apply(op: string, x: Val, y: Val, env: Env): Val {
    if op in BIN_OPS then EvalBin(op, x, y) else env.other(op, x, y)
  }

  /** What the word before a group makes of the group's value. */
  function Wrap(f: string, x: Val, env: Env): Val {
    if f == "" then x else env.unary(f, x)
  }

  function Eval(e: Expr, env: Env): Val {
    match e
    case Atom(t) => env.atom(t)
    case Bin(f, op, l, r) => Wrap(f, Apply(op, Eval(l, env), Eval(r, env), env), env)
    case Unary(op, x) => env.unary(op, Eval(x, env))
    case Call(f, args) => env.call(f, EvalArgs(args, env))
    case Ternary(c, a, b) =>
      (match Eval(c, env)
       case BoolV(t) => if t then Eval(a, env) else Eval(b, env)
       case _ => Err)
  }

  function EvalArgs(args: seq<Expr>, env: Env): seq<Val> {
    if args == [] then [] else [Eval(args[0], env)] + EvalArgs(args[1..], env)
  }

  lemma BinCommutes(op: string, x: Val, y: Val, env: Env)
    requires op in COMMUTATIVE
    ensures Apply(op, x, y, env) == Apply(op, y, x, env)
  {
    CommutativeKnown(op);
    match (x, y)
    case (IntV(m), IntV(n)) => assert m * n == n * m;
    case _ =>
  }

  /** An operator that the scan knows commutes, for all values, exactly when it is listed as commutative. */
  lemma {:induction false} CommutesIff(op: string)
    requires op in BIN_OPS
    ensures (forall x: Val, y: Val :: EvalBin(op, x, y) == EvalBin(op, y, x)) <==> op in COMMUTATIVE
  {
    if op in COMMUTATIVE {
      forall x: Val, y: Val ensures EvalBin(op, x, y) == EvalBin(op, y, x) {
        match (x, y)
        case (IntV(m), IntV(n)) => assert m * n == n * m;
        case _ =>
      }
    } else {
      assert op in ["<=", ">=", "-", "<", ">"];
      assert EvalBin(op, IntV(0), IntV(1)) != EvalBin(op, IntV(1), IntV(0));
    }
  }

  /** Swapping operands never changes the value of an expression. */
  lemma {:induction false} SwapPreservesValue(e: Expr, env: Env)
    ensures Eval(Swap(e), env) == Eval(e, env)
  {
    match e
    case Atom(_) =>
    case Bin(_, op, l, r) =>
      SwapPreservesValue(l, env);
      SwapPreservesValue(r, env);
      if op in COMMUTATIVE { BinCommutes(op, Eval(l, env), Eval(r, env), env); }
    case Unary(_, x) => SwapPreservesValue(x, env);
    case Call(_, args) => SwapAllPreservesValues(args, env);
    case Ternary(c, a, b) =>
      SwapPreservesValue(c, env);
      SwapPreservesValue(a, env);
      SwapPreservesValue(b, env);
  }

  lemma {:induction false} SwapAllPreservesValues(args: seq<Expr>, env: Env)
    ensures EvalArgs(SwapAll(args), env) == EvalArgs(args, env)
  {
    if args != [] {
      SwapPreservesValue(args[0], env);
      SwapAllPreservesValues(args[1..], env);
      assert SwapAll(args)[1..] == SwapAll(args[1..]);
    }
  }

  // ----- short-circuit evaluation -----

  /** `&&` and `||` look at their right operand only when the left one leaves the result open. */
  function LazyEval(e: Expr, env: Env): Val {
    match e
    case Atom(t) => env.atom(t)
    case Bin(f, op, l, r) =>
      var x := LazyEval(l, env);
      Wrap(f, if (op == "&&" && x == BoolV(false)) || (op == "||" && x == BoolV(true)) then x
              else Apply(op, x, LazyEval(r, env), env), env)
    case Unary(op, x) => env.unary(op, LazyEval(x, env))
    case Call(f, args) => env.call(f, LazyArgs(args, env))
    case Ternary(c, a, b) =>
      (match LazyEval(c, env)
       case BoolV(t) => if t then LazyEval(a, env) else LazyEval(b, env)
       case _ => Err)
  }

  function LazyArgs(args: seq<Expr>, env: Env): seq<Val> {
    if args == [] then [] else [LazyEval(args[0], env)] + LazyArgs(args[1..], env)
  }

  /** No operand of the expression fails, evaluated or not; of a conditional, the branch it takes. */
  predicate Clean(e: Expr, env: Env) {
    Eval(e, env) != Err &&
    match e
    case Atom(_) => true
    case Bin(_, op, l, r) => Clean(l, env) && Clean(r, env) && Apply(op, Eval(l, env), Eval(r, env), env) != Err
    case Unary(_, x) => Clean(x, env)
    case Call(_, args) => CleanArgs(args, env)
    case Ternary(c, a, b) => Clean(c, env) && Clean(if Eval(c, env) == BoolV(true) then a else b, env)
  }

  predicate CleanArgs(args: seq<Expr>, env: Env) {
    args == [] || (Clean(args[0], env) && CleanArgs(args[1..], env))
  }

  lemma {:induction false} LazyAgrees(e: Expr, env: Env)
    requires Clean(e, env)
    ensures LazyEval(e, env) == Eval(e, env)
  {
    match e
    case Atom(_) =>
    case Bin(_, op, l, r) =>
      LazyAgrees(l, env);
      LazyAgrees(r, env);
      assert "&&" in BIN_OPS && "||" in BIN_OPS by { assert BIN_OPS[4] == "&&" && BIN_OPS[5] == "||"; }
    case Unary(_, x) => LazyAgrees(x, env);
    case Call(_, args) => LazyArgsAgree(args, env);
    case Ternary(c, a, b) => LazyAgrees(c, env); LazyAgrees(if Eval(c, env) == BoolV(true) then a else b, env);
  }

  lemma {:induction false} LazyArgsAgree(args: seq<Expr>, env: Env)
    requires CleanArgs(args, env)
    ensures LazyArgs(args, env) == EvalArgs(args, env)
  {
    if args != [] {
      LazyAgrees(args[0], env);
      LazyArgsAgree(args[1..], env);
    }
  }

  lemma {:induction false} SwapKeepsClean(e: Expr, env: Env)
    requires Clean(e, env)
    ensures Clean(Swap(e), env)
  {
    SwapPreservesValue(e, env);
    match e
    case Atom(_) =>
    case Bin(_, op, l, r) =>
      SwapKeepsClean(l, env);
      SwapKeepsClean(r, env);
      SwapPreservesValue(l, env);
      SwapPreservesValue(r, env);
      if op in COMMUTATIVE { BinCommutes(op, Eval(l, env), Eval(r, env), env); }
    case Unary(_, x) => SwapKeepsClean(x, env);
    case Call(_, args) => SwapAllKeepsClean(args, env);
    case Ternary(c, a, b) =>
      SwapKeepsClean(c, env);
      SwapPreservesValue(c, env);
      SwapKeepsClean(if Eval(c, env) == BoolV(true) then a else b, env);
  }

  lemma {:induction false} SwapAllKeepsClean(args: seq<Expr>, env: Env)
    requires CleanArgs(args, env)
    ensures CleanArgs(SwapAll(args), env)
  {
    if args != [] {
      SwapKeepsClean(args[0], env);
      SwapAllKeepsClean(args[1..], env);
      assert SwapAll(args)[1..] == SwapAll(args[1..]);
    }
  }

  /** Under short-circuit evaluation the exchange keeps the value whenever no operand fails. */
  lemma {:induction false} SwapPreservesLazyValue(e: Expr, env: Env)
    requires Clean(e, env)
    ensures LazyEval(Swap(e), env) == LazyEval(e, env)
  {
    SwapKeepsClean(e, env);
    LazyAgrees(e, env);
    LazyAgrees(Swap(e), env);
    SwapPreservesValue(e, env);
  }

  /** A failing right operand that was skipped comes first after the exchange. */
  lemma FailingOperandExposed(env: Env, no: string, bad: string)
    requires env.atom(no) == BoolV(false) && env.atom(bad) == Err
    ensures var e := Bin("", "&&", Atom(no), Atom(bad));
            LazyEval(e, env) == BoolV(false) && LazyEval(Swap(e), env) == Err
  {
    var e := Bin("", "&&", Atom(no), Atom(bad));
    assert "&&" in COMMUTATIVE by { assert COMMUTATIVE[4] == "&&"; }
    assert Swap(e) == Bin("", "&&", Atom(bad), Atom(no));
  }
}
