/** The local-renaming variant: every identifier l<digits> becomes ml<digits>. */
module ShapeRename {
  import opened Wrappers
  import opened Text
  import opened ShapeLang

  predicate IsLocalName(x: string) {
    |x| > 1 && x[0] == 'l' && AllDigits(x[1..])
  }

  function RenameName(x: string): string {
    if IsLocalName(x) then "m" + x else x
  }

  function RenameExpr(e: Expr): Expr {
    match e
    case Lit(_) => e
    case Var(x) => Var(RenameName(x))
    case Prop(x) => Prop(RenameName(x))
    case Plus(l, r) => Plus(RenameExpr(l), RenameExpr(r))
    case Compare(op, l, r) => Compare(op, RenameExpr(l), RenameExpr(r))
    case Not(f) => Not(RenameExpr(f))
  }

  function RenameExprs(es: seq<Expr>): (rs: seq<Expr>)
    ensures |rs| == |es|
  {
    if es == [] then [] else [RenameExpr(es[0])] + RenameExprs(es[1..])
  }

  function RenameStmt(s: Stmt): Stmt {
    match s
    case Assert(c) => Assert(RenameExpr(c))
    case Let(x, e) => Let(RenameName(x), RenameExpr(e))
    case Assign(x, e) => Assign(RenameName(x), RenameExpr(e))
    case If(c, thn, els) => If(RenameExpr(c), RenameStmts(thn), RenameStmts(els))
    case For(i, bound, body) => For(RenameName(i), bound, RenameStmts(body))
    case AddOutput(sats, es) => AddOutput(sats, RenameExprs(es))
  }

  function RenameStmts(ss: seq<Stmt>): seq<Stmt> {
    if ss == [] then [] else [RenameStmt(ss[0])] + RenameStmts(ss[1..])
  }

  function RenameAll(names: seq<string>): (rs: seq<string>)
    ensures |rs| == |names|
  {
    seq(|names|, i requires 0 <= i < |names| => RenameName(names[i]))
  }

  function RenameLocals(c: Contract): Contract {
    Contract(RenameAll(c.props), RenameAll(c.params), RenameStmts(c.body))
  }

  // ----- where renaming is capture-free -----

  /** A name that no renamed local can collide with. */
  predicate Plain(x: string) {
    !(|x| > 1 && x[0] == 'm' && IsLocalName(x[1..]))
  }

  predicate PlainExpr(e: Expr) {
    match e
    case Lit(_) => true
    case Var(x) => Plain(x)
    case Prop(x) => Plain(x)
    case Plus(l, r) => PlainExpr(l) && PlainExpr(r)
    case Compare(_, l, r) => PlainExpr(l) && PlainExpr(r)
    case Not(f) => PlainExpr(f)
  }

  predicate PlainStmt(s: Stmt) {
    match s
    case Assert(c) => PlainExpr(c)
    case Let(x, e) => Plain(x) && PlainExpr(e)
    case Assign(x, e) => Plain(x) && PlainExpr(e)
    case If(c, thn, els) => PlainExpr(c) && PlainStmts(thn) && PlainStmts(els)
    case For(i, _, body) => Plain(i) && PlainStmts(body)
    case AddOutput(_, es) => forall e :: e in es ==> PlainExpr(e)
  }

  predicate PlainStmts(ss: seq<Stmt>) {
    forall s :: s in ss ==> PlainStmt(s)
  }

  predicate PlainContract(c: Contract) {
    && (forall x :: x in c.props ==> Plain(x))
    && (forall x :: x in c.params ==> Plain(x))
    && PlainStmts(c.body)
  }

  lemma RenameInjective(x: string, y: string)
    requires Plain(x) && Plain(y) && RenameName(x) == RenameName(y)
    ensures x == y
  {
    if IsLocalName(x) {
      assert RenameName(x)[1..] == x;
    }
    if IsLocalName(y) {
      assert RenameName(y)[1..] == y;
    }
  }

  // ----- renaming is a simulation -----

  ghost predicate Rel(m: map<string, Value>, m': map<string, Value>) {
    forall x :: Plain(x) ==>
      (x in m <==> RenameName(x) in m') && (x in m ==> m[x] == m'[RenameName(x)])
  }

  ghost predicate RelState(s: State, s': State) {
    Rel(s.vars, s'.vars) && Rel(s.props, s'.props) && s.outputs == s'.outputs
  }

  ghost predicate RelOutcome(o: Outcome, o': Outcome) {
    match (o, o')
    case (Running(s), Running(s')) => RelState(s, s')
    case (Rejected, Rejected) => true
    case (Stuck, Stuck) => true
    case _ => false
  }

  lemma RelUpdate(m: map<string, Value>, m': map<string, Value>, x: string, v: Value)
    requires Rel(m, m') && Plain(x)
    ensures Rel(m[x := v], m'[RenameName(x) := v])
  {
    forall y | Plain(y) && RenameName(x) == RenameName(y) ensures x == y {
      RenameInjective(x, y);
    }
  }

  lemma RelRemove(m: map<string, Value>, m': map<string, Value>, x: string)
    requires Rel(m, m') && Plain(x)
    ensures Rel(m - {x}, m' - {RenameName(x)})
  {
    forall y | Plain(y) && RenameName(x) == RenameName(y) ensures x == y {
      RenameInjective(x, y);
    }
  }

  lemma {:induction false} SimExpr(e: Expr, s: State, s': State)
    requires RelState(s, s') && PlainExpr(e)
    ensures Eval(RenameExpr(e), s') == Eval(e, s)
  {
    match e
    case Lit(_) =>
    case Var(_) =>
    case Prop(_) =>
    case Plus(l, r) => SimExpr(l, s, s'); SimExpr(r, s, s');
    case Compare(_, l, r) => SimExpr(l, s, s'); SimExpr(r, s, s');
    case Not(f) => SimExpr(f, s, s');
  }

  lemma {:induction false} SimExprs(es: seq<Expr>, s: State, s': State)
    requires RelState(s, s') && forall e :: e in es ==> PlainExpr(e)
    ensures EvalAll(RenameExprs(es), s') == EvalAll(es, s)
  {
    if es != [] {
      SimExpr(es[0], s, s');
      SimExprs(es[1..], s, s');
      assert RenameExprs(es)[1..] == RenameExprs(es[1..]);
    }
  }

  lemma {:induction false} SimStmt(t: Stmt, s: State, s': State)
    requires RelState(s, s') && PlainStmt(t)
    ensures RelOutcome(ExecStmt(t, s), ExecStmt(RenameStmt(t), s'))
    decreases t, 0, 0
  {
    match t
    case Assert(c) => SimExpr(c, s, s');
    case Let(x, e) =>
      SimExpr(e, s, s');
      if Eval(e, s).Some? { RelUpdate(s.vars, s'.vars, x, Eval(e, s).value); }
    case Assign(x, e) =>
      SimExpr(e, s, s');
      if Eval(e, s).Some? { RelUpdate(s.vars, s'.vars, x, Eval(e, s).value); }
    case If(c, thn, els) =>
      SimExpr(c, s, s');
      SimStmts(thn, s, s');
      SimStmts(els, s, s');
    case For(i, bound, body) => SimLoop(i, body, 0, bound, s, s');
    case AddOutput(_, es) => SimExprs(es, s, s');
  }

  lemma {:induction false} SimStmts(ss: seq<Stmt>, s: State, s': State)
    requires RelState(s, s') && PlainStmts(ss)
    ensures RelOutcome(Exec(ss, s), Exec(RenameStmts(ss), s'))
    decreases ss, 0, 0
  {
    if ss != [] {
      SimStmt(ss[0], s, s');
      assert RenameStmts(ss)[1..] == RenameStmts(ss[1..]);
      match (ExecStmt(ss[0], s), ExecStmt(RenameStmt(ss[0]), s')) {
        case (Running(t), Running(t')) => SimStmts(ss[1..], t, t');
        case _ =>
      }
    }
  }

  lemma {:induction false} SimLoop(i: string, body: seq<Stmt>, k: nat, bound: nat, s: State, s': State)
    requires RelState(s, s') && Plain(i) && PlainStmts(body)
    ensures RelOutcome(ExecLoop(i, body, k, bound, s), ExecLoop(RenameName(i), RenameStmts(body), k, bound, s'))
    decreases body, 1, bound - k
  {
    if k >= bound {
      RelRemove(s.vars, s'.vars, i);
    } else {
      RelUpdate(s.vars, s'.vars, i, Int(k));
      var t, t' := s.(vars := s.vars[i := Int(k)]), s'.(vars := s'.vars[RenameName(i) := Int(k)]);
      SimStmts(body, t, t');
      match (Exec(body, t), Exec(RenameStmts(body), t')) {
        case (Running(u), Running(u')) => SimLoop(i, body, k + 1, bound, u, u');
        case _ =>
      }
    }
  }

  lemma {:induction false} RelZip(names: seq<string>, vals: seq<Value>)
    requires |names| == |vals| && forall x :: x in names ==> Plain(x)
    ensures Rel(Zip(names, vals), Zip(RenameAll(names), vals))
  {
    if names != [] {
      var n := |names| - 1;
      RelZip(names[..n], vals[..n]);
      assert RenameAll(names)[..n] == RenameAll(names[..n]);
      RelUpdate(Zip(names[..n], vals[..n]), Zip(RenameAll(names[..n]), vals[..n]), names[n], vals[n]);
    }
  }

  /** Renaming the locals of any contract without captured names leaves its verdict and
      outputs alone, for every deployment and every call. */
  lemma RenamePreservesSpend(c: Contract, ctorArgs: seq<Value>, args: seq<Value>)
    requires PlainContract(c)
    ensures Spend(RenameLocals(c), ctorArgs, args) == Spend(c, ctorArgs, args)
  {
    if |ctorArgs| == |c.props| && |args| == |c.params| {
      RelZip(c.params, args);
      RelZip(c.props, ctorArgs);
      SimStmts(c.body, State(Zip(c.params, args), Zip(c.props, ctorArgs), []),
               State(Zip(RenameAll(c.params), args), Zip(RenameAll(c.props), ctorArgs), []));
    }
  }

  lemma RenameThree(x: Stmt, y: Stmt, z: Stmt)
    ensures RenameStmts([x, y, z]) == [RenameStmt(x), RenameStmt(y), RenameStmt(z)]
  {
    assert [x, y, z][1..] == [y, z] && [y, z][1..] == [z] && [z][1..] == [];
    assert RenameStmts([z]) == [RenameStmt(z)] + RenameStmts([]);
    assert RenameStmts([y, z]) == [RenameStmt(y)] + RenameStmts([z]);
  }

  lemma ExecThree(x: Stmt, y: Stmt, z: Stmt, s: State)
    ensures Exec([x, y, z], s) == Then(Then(ExecStmt(x, s), [y]), [z])
  {
    assert [x, y, z] == [x] + ([y] + [z]);
    ExecAppend([x], [y] + [z], s);
    if Exec([x], s).Running? {
      ExecAppend([y], [z], Exec([x], s).st);
    }
  }

  /** Declare a as 1 and b as 2, then output a. */
  function TwoLocals(a: string, b: string): seq<Stmt> {
    [Let(a, Lit(Int(1))), Let(b, Lit(Int(2))), AddOutput(0, [Var(a)])]
  }

  lemma RunTwoLocals(a: string, b: string)
    ensures Spend(Contract([], [], TwoLocals(a, b)), [], [])
            == Accept([Output(0, [Int(if a == b then 2 else 1)])])
  {
    var s := State(map[], map[], []);
    var t := s.(vars := map[a := Int(1)]);
    var u := t.(vars := t.vars[b := Int(2)]);
    ExecThree(Let(a, Lit(Int(1))), Let(b, Lit(Int(2))), AddOutput(0, [Var(a)]), s);
    EvalAllOne(Var(a), u);
    assert Exec([Let(b, Lit(Int(2)))], t) == Running(u);
    assert Exec([AddOutput(0, [Var(a)])], u) == ExecStmt(AddOutput(0, [Var(a)]), u);
    assert Zip([], []) == map[];
  }

  /** Without that side condition renaming can capture: l0 and ml0 become one variable. */
  lemma RenameCaptures()
    ensures !PlainContract(Contract([], [], TwoLocals("l0", "ml0")))
    ensures Spend(Contract([], [], TwoLocals("l0", "ml0")), [], []) == Accept([Output(0, [Int(1)])])
    ensures Spend(RenameLocals(Contract([], [], TwoLocals("l0", "ml0"))), [], []) == Accept([Output(0, [Int(2)])])
  {
    assert "m" + "l0" == "ml0" && "ml0"[1..] == "l0";
    assert IsLocalName("l0") && !IsLocalName("ml0") && !Plain("ml0");
    assert !PlainStmt(TwoLocals("l0", "ml0")[1]);
    RunTwoLocals("l0", "ml0");
    RunTwoLocals("ml0", "ml0");
    RenameThree(Let("l0", Lit(Int(1))), Let("ml0", Lit(Int(2))), AddOutput(0, [Var("l0")]));
    assert RenameExprs([Var("l0")]) == [Var("ml0")] by {
      assert RenameExprs([Var("l0")][1..]) == [];
    }
    assert RenameStmts(TwoLocals("l0", "ml0")) == TwoLocals("ml0", "ml0");
  }
}
