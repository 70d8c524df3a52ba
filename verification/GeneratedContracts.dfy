/** The random contracts that the operand swap is applied to, and what it makes of their source text. */
module GeneratedContracts {
  import opened Collections
  import opened Metamorphic
  import opened Numbers
  import opened Text

  // ----- expressions -----

  predicate IsWordChar(c: char) {
    IsDigit(c) || 'a' <= c <= 'z' || 'A' <= c <= 'Z' || c == '_'
  }

  predicate Identifier(s: string) {
    s != "" && forall i :: 0 <= i < |s| ==> IsWordChar(s[i])
  }

  function Literal(n: int): string {
    (if n < 0 then "-" else "") + (Decimal(Abs(n)) + "n")
  }

  ghost predicate IsLiteral(e: Expr, lo: int, hi: int) {
    exists n :: lo <= n <= hi && e == Atom(Literal(n))
  }

  ghost predicate IsDivisor(e: Expr) {
    IsLiteral(e, 1, 20) || IsLiteral(e, -20, -1)
  }

  ghost predicate IsShiftCount(e: Expr) {
    IsLiteral(e, 0, 16)
  }

  predicate IsVariable(e: Expr, vars: seq<string>) {
    e.Atom? && e.text in vars
  }

  /** A shift result under a bitwise operator: `(((l) << k) op (r))`. */
  ghost predicate IsChain(e: Expr) {
    && e.Bin? && e.fn == "" && e.op in ["&", "|", "^"]
    && e.l.Bin? && e.l.fn == "" && e.l.op == "<<" && IsShiftCount(e.l.r)
    && e.l.l.Unary? && e.l.l.uop == "" && e.r.Unary? && e.r.uop == ""
  }

  /** The integer expressions of the generator. */
  ghost predicate Arith(e: Expr, vars: seq<string>, depth: nat) {
    || IsLiteral(e, -1000, 1000)
    || IsVariable(e, vars)
    || (depth > 0 && vars != [] &&
        if IsChain(e) then Arith(e.l.l.e, vars, depth - 1) && Arith(e.r.e, vars, depth - 1)
        else
          && e.Bin? && e.fn == "" && Arith(e.l, vars, depth - 1)
          && (|| (e.op in ["+", "-", "*", "&", "|", "^"] && Arith(e.r, vars, depth - 1))
              || (e.op in ["/", "%"] && IsDivisor(e.r))
              || (e.op in ["<<", ">>"] && IsShiftCount(e.r))))
  }

  /** The conditions of the generator. */
  ghost predicate Condition(e: Expr, vars: seq<string>, depth: nat) {
    if depth == 0 then e == Atom("true") || e == Atom("false")
    else
      match e
      case Bin(f, op, l, r) =>
        f == "" &&
        (|| (vars != [] && op in ["===", "!==", "<", "<=", ">", ">="]
             && Arith(l, vars, depth - 1) && Arith(r, vars, depth - 1))
         || (op in ["&&", "||"] && Condition(l, vars, depth - 1) && Condition(r, vars, depth - 1)))
      case Unary(op, x) => op == "!" && Condition(x, vars, depth - 1)
      case _ => vars == [] && (e == Atom("true") || e == Atom("false"))
  }

  predicate Names(vars: seq<string>) {
    forall v :: v in vars ==> WellFormed(Atom(v))
  }

  lemma {:induction false} IdentifierWord(s: string)
    requires Identifier(s)
    ensures WellFormed(Atom(s)) && WellFormed(Atom("this." + s)) && Word(s)
  {
    assert forall i :: 0 <= i < |"this."| ==> "this."[i] != ' ' && "this."[i] != ',' && "this."[i] != '(' && "this."[i] != ')';
    assert s[0] == s[0] && ("this." + s)[0] == 't';
    forall op | op in BIN_OPS ensures op != s && op != "this." + s {
      assert !IsWordChar(op[0]);
    }
  }

  lemma {:induction false} LiteralWord(n: int)
    ensures WellFormed(Atom(Literal(n)))
  {
    var s, d := Literal(n), Decimal(Abs(n));
    assert s == (if n < 0 then "-" else "") + d + "n";
    assert s[|s| - 1] == 'n';
    forall i | 0 <= i < |s| ensures s[i] != ' ' && s[i] != ',' && s[i] != '(' && s[i] != ')' {
      assert s[i] == 'n' || s[i] == '-' || s[i] in d;
    }
    forall op | op in BIN_OPS ensures op != s {
      assert op[|op| - 1] != 'n';
    }
  }

  lemma {:induction false} LiteralWellFormed(e: Expr, lo: int, hi: int)
    requires IsLiteral(e, lo, hi)
    ensures WellFormed(e)
  {
    var n :| lo <= n <= hi && e == Atom(Literal(n));
    LiteralWord(n);
  }

  lemma {:induction false} ArithWellFormed(e: Expr, vars: seq<string>, depth: nat)
    requires Arith(e, vars, depth) && Names(vars)
    ensures WellFormed(e)
  {
    if IsLiteral(e, -1000, 1000) {
      LiteralWellFormed(e, -1000, 1000);
    } else if !IsVariable(e, vars) {
      if IsChain(e) {
        ArithWellFormed(e.l.l.e, vars, depth - 1);
        ArithWellFormed(e.r.e, vars, depth - 1);
        LiteralWellFormed(e.l.r, 0, 16);
      } else {
        ArithWellFormed(e.l, vars, depth - 1);
        if e.op in ["/", "%"] {
          if IsLiteral(e.r, 1, 20) { LiteralWellFormed(e.r, 1, 20); } else { LiteralWellFormed(e.r, -20, -1); }
        } else if e.op in ["<<", ">>"] {
          LiteralWellFormed(e.r, 0, 16);
        } else {
          ArithWellFormed(e.r, vars, depth - 1);
        }
      }
    }
  }

  lemma {:induction false} ConditionWellFormed(e: Expr, vars: seq<string>, depth: nat)
    requires Condition(e, vars, depth) && Names(vars)
    ensures WellFormed(e)
  {
    if e == Atom("true") || e == Atom("false") {
      IdentifierWord("true");
      IdentifierWord("false");
    } else if e.Unary? {
      ConditionWellFormed(e.e, vars, depth - 1);
    } else if e.op in ["&&", "||"] {
      ConditionWellFormed(e.l, vars, depth - 1);
      ConditionWellFormed(e.r, vars, depth - 1);
    } else {
      ArithWellFormed(e.l, vars, depth - 1);
      ArithWellFormed(e.r, vars, depth - 1);
    }
  }

  // ----- contracts -----

  /** `check` is the assert statement that makes up the body; every parameter is an integer. */
  datatype Method = Method(name: string, params: seq<string>, check: Expr)

  /** A stateless contract has no properties and an empty constructor. */
  datatype Contract = Stateless(name: string, methods: seq<Method>)
                    | Arithmetic(name: string, props: seq<string>, methods: seq<Method>)

  predicate Identifiers(names: seq<string>) {
    forall n :: n in names ==> Identifier(n)
  }

  function ThisProps(props: seq<string>): seq<string> {
    seq(|props|, i requires 0 <= i < |props| => "this." + props[i])
  }

  ghost predicate GeneratedCheck(c: Contract, m: Method) {
    match c
    case Stateless(_, _) => m.check.Unary? && m.check.uop == "assert" && Condition(m.check.e, m.params, 2)
    case Arithmetic(_, props, _) =>
      && m.check.Bin? && m.check.fn == "assert" && m.check.op == "==="
      && Arith(m.check.l, ThisProps(props) + m.params, 3) && Arith(m.check.r, ThisProps(props) + m.params, 3)
  }

  /** What the two generators of the metamorphic driver can produce. */
  ghost predicate Generated(c: Contract) {
    && Identifier(c.name) && 1 <= |c.methods| <= (if c.Stateless? then 2 else 3)
    && (c.Arithmetic? ==> 1 <= |c.props| <= 3 && Identifiers(c.props))
    && forall m :: m in c.methods ==>
         Identifier(m.name) && 1 <= |m.params| <= 3 && Identifiers(m.params) && GeneratedCheck(c, m)
  }

  // ----- source text -----

  function ParamList(names: seq<string>): string {
    if names == [] then ""
    else names[0] + ":" + (" bigint" + (if |names| == 1 then "" else "," + (" " + ParamList(names[1..]))))
  }

  function Lines(before: string, names: seq<string>, after: string -> string): string {
    if names == [] then ""
    else before + names[0] + after(names[0]) + (if |names| == 1 then "" else "\n" + Lines(before, names[1..], after))
  }

  function Atoms(names: seq<string>): seq<Expr> {
    if names == [] then [] else [Atom(names[0])] + Atoms(names[1..])
  }

  function ConstructorSegments(c: Contract): seq<Segment> {
    match c
    case Stateless(_, _) =>
      [Plain("  constructor"), Params(""), Plain(" { "), Expression(Call("super", [])), Plain("; }")]
    case Arithmetic(_, props, _) =>
      [Plain(Lines("  readonly ", props, p => ": bigint;") + "\n\n  constructor"),
       Params(ParamList(props)),
       Plain(" {\n    "),
       Expression(Call("super", Atoms(props))),
       Plain(";\n" + Lines("    this.", props, p => " = " + p + ";") + "\n  }")]
  }

  function MethodSegments(m: Method): seq<Segment> {
    [Plain("  public " + m.name), Params(ParamList(m.params)), Plain(" {\n    "), Expression(m.check), Plain(";\n  }")]
  }

  function MethodsSegments(ms: seq<Method>): seq<Segment> {
    if ms == [] then []
    else MethodSegments(ms[0]) + (if |ms| == 1 then [] else [Plain("\n\n")] + MethodsSegments(ms[1..]))
  }

  const IMPORTS := "import { SmartContract, assert } " + "from 'runar-lang';\n\n"

  function ClassHead(name: string): string {
    IMPORTS + "export class " + name + " extends SmartContract {\n"
  }

  function Segments(c: Contract): seq<Segment> {
    [Plain(ClassHead(c.name))] + ConstructorSegments(c) + [Plain("\n\n")] + MethodsSegments(c.methods) + [Plain("\n}\n")]
  }

  function ContractText(c: Contract): string {
    Source(Segments(c))
  }

  // ----- the text of a generated contract is good source -----

  /** The scan passes over one typed parameter. */
  lemma {:induction false} ParamNoOps(w: string, rest: string, at: nat)
    requires Solid(w, 0) && w != "" && w !in BIN_OPS && (rest == "" || rest[0] == ',')
    ensures TopOps(w + (" bigint" + rest), 0, at) == TopOps(rest, 0, at + |w| + 7)
    ensures TopOps(" " + (w + (" bigint" + rest)), 0, at) == TopOps(rest, 0, at + |w| + 8)
  {
    hide *;
    var tail := " bigint" + rest;
    WordBigint();
    assert " " + "bigint" + rest == tail;
    SpaceThenSolid("bigint", rest, at + |w|);
    SpaceThenSolid("bigint", rest, at + |w| + 1);
    SkipSolid(w, tail, 0, at);
    assert " " + (w + tail) == " " + w + tail;
    SpaceThenSolid(w, tail, at);
  }

  lemma {:induction false} ParamListNoOps(names: seq<string>, at: nat)
    requires names != [] && Identifiers(names)
    ensures TopOps(ParamList(names), 0, at) == [] && TopOps(" " + ParamList(names), 0, at) == []
  {
    var w := names[0] + ":";
    NameColon(names[0]);
    if |names| > 1 {
      var more := " " + ParamList(names[1..]);
      assert ParamList(names) == w + (" bigint" + ("," + more));
      assert Identifiers(names[1..]);
      ParamListNoOps(names[1..], at + |w| + 8);
      ParamListNoOps(names[1..], at + |w| + 9);
      hide *;
      ParamNoOps(w, "," + more, at);
      TopOpsComma(more, at + |w| + 7);
      TopOpsComma(more, at + |w| + 8);
    } else {
      assert ParamList(names) == w + (" bigint" + "");
      hide *;
      ParamNoOps(w, "", at);
      TopOpsEmpty();
    }
  }

  lemma {:induction false} NameColon(name: string)
    requires Identifier(name)
    ensures Word(name + ":") && Solid(name + ":", 0) && name + ":" !in BIN_OPS
  {
    var w := name + ":";
    assert w[|w| - 1] == ':';
    assert forall i :: 0 <= i < |w| ==> w[i] == ':' || IsWordChar(w[i]);
    WordSolid(w);
    forall op | op in BIN_OPS ensures op != w {
      assert op[|op| - 1] != ':';
    }
  }

  lemma {:induction false} WordBigint()
    ensures Solid("bigint", 0) && "bigint" != "" && "bigint" !in BIN_OPS
  {
    var w := "bigint";
    assert Word(w);
    WordSolid(w);
    assert forall op :: op in BIN_OPS ==> |op| < 4;
  }

  predicate NoParens(s: string) {
    forall i :: 0 <= i < |s| ==> s[i] != '(' && s[i] != ')'
  }

  lemma {:induction false} ParamListNoParens(names: seq<string>)
    requires Identifiers(names)
    ensures NoParens(ParamList(names))
  {
    if names != [] {
      assert Identifiers(names[1..]);
      ParamListNoParens(names[1..]);
      var rest := if |names| == 1 then "" else "," + (" " + ParamList(names[1..]));
      assert NoParens(rest);
      assert NoParens(" bigint" + rest);
      assert Identifier(names[0]) && NoParens(names[0]);
      assert NoParens(names[0] + ":");
    }
  }

  lemma {:induction false} GoodParams(names: seq<string>)
    requires Identifiers(names)
    ensures GoodSegment(Params(ParamList(names)))
  {
    ParamListNoParens(names);
    if names != [] {
      ParamListNoOps(names, 0);
    }
  }

  lemma {:induction false} LinesNoParens(before: string, names: seq<string>, after: string -> string)
    requires Identifiers(names) && NoParens(before) && forall n :: Identifier(n) ==> NoParens(after(n))
    ensures NoParens(Lines(before, names, after))
  {
    if names != [] {
      assert Identifiers(names[1..]);
      LinesNoParens(before, names[1..], after);
      var rest := if |names| == 1 then "" else "\n" + Lines(before, names[1..], after);
      assert Identifier(names[0]) && NoParens(names[0]);
      assert NoParens(before + names[0]);
      assert NoParens(rest);
      assert NoParens(before + names[0] + after(names[0]));
    }
  }

  lemma {:induction false} AtomsGood(names: seq<string>)
    requires Identifiers(names)
    ensures forall x :: x in Atoms(names) ==> WellFormed(x)
    ensures SwapAll(Atoms(names)) == Atoms(names)
  {
    if names != [] {
      IdentifierWord(names[0]);
      assert Identifiers(names[1..]);
      AtomsGood(names[1..]);
      assert Atoms(names)[1..] == Atoms(names[1..]);
    }
  }

  /** Good source that the transform turns into the given segments. */
  ghost predicate Rewrites(segs: seq<Segment>, segs': seq<Segment>) {
    GoodSource(segs) && SwapSegments(segs) == segs'
  }

  lemma {:induction false} RewritesConcat(a: seq<Segment>, a': seq<Segment>, b: seq<Segment>, b': seq<Segment>)
    requires Rewrites(a, a') && Rewrites(b, b')
    ensures Rewrites(a + b, a' + b')
  {
    hide GoodSegment, SwapSegment;
  }

  lemma {:induction false} RewritesPlain(s: string)
    requires NoParens(s)
    ensures Rewrites([Plain(s)], [Plain(s)])
  {
  }

  /** A head, a parameter list, some text, an expression and a tail. */
  lemma {:induction false} RewritesMember(head: string, params: string, mid: string, e: Expr, tail: string)
    requires NoParens(head) && GoodSegment(Params(params)) && NoParens(mid) && WellFormed(e) && NoParens(tail)
    ensures Rewrites(
              [Plain(head), Params(params), Plain(mid), Expression(e), Plain(tail)],
              [Plain(head), Params(params), Plain(mid), Expression(Swap(e)), Plain(tail)])
  {
    hide WellFormed, Swap, TopOps;
  }

  lemma {:induction false} ConstructorGood(c: Contract)
    requires Generated(c)
    ensures Rewrites(ConstructorSegments(c), ConstructorSegments(c))
  {
    assert Word("super");
    match c
    case Stateless(_, _) =>
      assert SwapAll([]) == [];
      RewritesMember("  constructor", "", " { ", Call("super", []), "; }");
    case Arithmetic(_, props, _) =>
      LinesNoParens("  readonly ", props, p => ": bigint;");
      LinesNoParens("    this.", props, p => " = " + p + ";");
      GoodParams(props);
      AtomsGood(props);
      SuperCall(Atoms(props));
      var fields, assigns := Lines("  readonly ", props, p => ": bigint;"), Lines("    this.", props, p => " = " + p + ";");
      hide Lines, ParamList, Rewrites, WellFormed, Swap, GoodSegment;
      JoinNoParens(fields, "\n\n  constructor");
      JoinNoParens(";\n", assigns);
      JoinNoParens(";\n" + assigns, "\n  }");
      RewritesMember(fields + "\n\n  constructor", ParamList(props), " {\n    ", Call("super", Atoms(props)), ";\n" + assigns + "\n  }");
  }

  lemma JoinNoParens(a: string, b: string)
    requires NoParens(a) && NoParens(b)
    ensures NoParens(a + b)
  {
  }

  lemma {:induction false} SuperCall(args: seq<Expr>)
    requires (forall x :: x in args ==> WellFormed(x)) && SwapAll(args) == args
    ensures WellFormed(Call("super", args)) && Swap(Call("super", args)) == Call("super", args)
  {
    assert Word("super");
  }

  /** The contract whose assert statements have exchanged operands. */
  function Exchanged(c: Contract): Contract {
    c.(methods := SwapChecks(c.methods))
  }

  function SwapCheck(m: Method): Method {
    m.(check := Swap(m.check))
  }

  function SwapChecks(ms: seq<Method>): seq<Method> {
    seq(|ms|, i requires 0 <= i < |ms| => SwapCheck(ms[i]))
  }

  lemma {:induction false} VariablesGood(c: Contract, m: Method)
    requires Generated(c) && m in c.methods
    ensures Names(m.params) && (c.Arithmetic? ==> Names(ThisProps(c.props) + m.params))
  {
    hide GeneratedCheck, WellFormed;
    forall v | v in m.params ensures WellFormed(Atom(v)) {
      IdentifierWord(v);
    }
    if c.Arithmetic? {
      forall v | v in ThisProps(c.props) ensures WellFormed(Atom(v)) {
        var i :| 0 <= i < |c.props| && v == "this." + c.props[i];
        IdentifierWord(c.props[i]);
      }
    }
  }

  lemma {:induction false} CheckWellFormed(c: Contract, m: Method)
    requires Generated(c) && m in c.methods
    ensures WellFormed(m.check)
  {
    VariablesGood(c, m);
    assert Word("assert");
    match c
    case Stateless(_, _) => ConditionWellFormed(m.check.e, m.params, 2);
    case Arithmetic(_, props, _) =>
      ArithWellFormed(m.check.l, ThisProps(props) + m.params, 3);
      ArithWellFormed(m.check.r, ThisProps(props) + m.params, 3);
  }

  lemma {:induction false} MethodGood(c: Contract, m: Method)
    requires Generated(c) && m in c.methods
    ensures Rewrites(MethodSegments(m), MethodSegments(SwapCheck(m)))
  {
    CheckWellFormed(c, m);
    hide Arith, Condition, WellFormed, ParamList, GeneratedCheck, Rewrites, GoodSegment, Swap;
    GoodParams(m.params);
    assert Identifier(m.name);
    JoinNoParens("  public ", m.name);
    RewritesMember("  public " + m.name, ParamList(m.params), " {\n    ", m.check, ";\n  }");
  }

  lemma {:induction false} MethodsGood(c: Contract, ms: seq<Method>)
    requires Generated(c) && forall m :: m in ms ==> m in c.methods
    ensures Rewrites(MethodsSegments(ms), MethodsSegments(SwapChecks(ms)))
  {
    if ms != [] {
      hide MethodSegments, Generated, SwapCheck, Rewrites;
      MethodGood(c, ms[0]);
      var ms' := SwapChecks(ms);
      assert ms'[1..] == SwapChecks(ms[1..]);
      if |ms| > 1 {
        MethodsGood(c, ms[1..]);
        var gap := [Plain("\n\n")];
        RewritesPlain("\n\n");
        RewritesConcat(gap, gap, MethodsSegments(ms[1..]), MethodsSegments(ms'[1..]));
        RewritesConcat(MethodSegments(ms[0]), MethodSegments(ms'[0]),
                       gap + MethodsSegments(ms[1..]), gap + MethodsSegments(ms'[1..]));
      } else {
        AppendNone(MethodSegments(ms[0]));
        AppendNone(MethodSegments(ms'[0]));
      }
    } else {
      assert SwapChecks(ms) == [];
    }
  }

  lemma AppendNone(a: seq<Segment>)
    ensures a + [] == a
  {
  }

  lemma {:induction false} ClassHeadNoParens(name: string)
    requires Identifier(name)
    ensures NoParens(ClassHead(name))
  {
    assert NoParens(name);
    var head := IMPORTS + "export class ";
    JoinNoParens("import { SmartContract, assert } ", "from 'runar-lang';\n\n");
    JoinNoParens(IMPORTS, "export class ");
    JoinNoParens(head, name);
    JoinNoParens(head + name, " extends SmartContract {\n");
  }

  lemma {:induction false} SegmentsGood(c: Contract)
    requires Generated(c)
    ensures Rewrites(Segments(c), Segments(Exchanged(c)))
  {
    hide NoParens, Rewrites, ClassHead, MethodsSegments, SwapChecks, Identifiers, GeneratedCheck;
    ConstructorGood(c);
    MethodsGood(c, c.methods);
    ClassHeadNoParens(c.name);
    assert ConstructorSegments(Exchanged(c)) == ConstructorSegments(c);
    RewritesPlain(ClassHead(c.name));
    RewritesPlain("\n\n");
    RewritesPlain("\n}\n");
    hide Generated, ConstructorSegments;
    var first, ctor, gap := [Plain(ClassHead(c.name))], ConstructorSegments(c), [Plain("\n\n")];
    var ms, ms', last := MethodsSegments(c.methods), MethodsSegments(SwapChecks(c.methods)), [Plain("\n}\n")];
    RewritesConcat(first, first, ctor, ctor);
    RewritesConcat(first + ctor, first + ctor, gap, gap);
    RewritesConcat(first + ctor + gap, first + ctor + gap, ms, ms');
    RewritesConcat(first + ctor + gap + ms, first + ctor + gap + ms', last, last);
  }

  /** On every generated contract the transform exchanges the operands inside the assert statements and
      changes nothing else, applying it again restores the text, and no check changes its value. */
  lemma {:induction false} ReorderGenerated(c: Contract)
    requires Generated(c)
    ensures Reordered(ContractText(c)) == ContractText(Exchanged(c))
    ensures Reordered(Reordered(ContractText(c))) == ContractText(c)
    ensures |Exchanged(c).methods| == |c.methods|
    ensures forall env, i :: 0 <= i < |c.methods| ==> Eval(Exchanged(c).methods[i].check, env) == Eval(c.methods[i].check, env)
  {
    SegmentsGood(c);
    forall env, i | 0 <= i < |c.methods|
      ensures Eval(Exchanged(c).methods[i].check, env) == Eval(c.methods[i].check, env)
    {
      SwapPreservesValue(c.methods[i].check, env);
    }
    assert GoodSource(Segments(c)) && SwapSegments(Segments(c)) == Segments(Exchanged(c));
    hide *;
    ReorderSource(Segments(c));
    ReorderTwice(Segments(c));
  }
}
