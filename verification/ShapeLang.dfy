/** The fragment of the contract language that the spend-shape generator renders, with its meaning. */
module ShapeLang {
  import opened Collections
  import opened Wrappers
  import opened Text

  datatype ShapeType = BigintT | BooleanT | ByteStringT | PubKeyT

  /** A bigint, a boolean, or the lowercase hex of a ByteString or PubKey. */
  datatype Value = Int(n: int) | Bool(b: bool) | Hex(hex: string)

  predicate HasType(v: Value, t: ShapeType) {
    match t
    case BigintT => v.Int?
    case BooleanT => v.Bool?
    case _ => v.Hex?
  }

  datatype Cmp = Gt | Ge | Le | EqEq

  datatype Expr =
    | Lit(v: Value)
    | Var(name: string)
    | Prop(name: string)            // this.<name>
    | Plus(l: Expr, r: Expr)
    | Compare(op: Cmp, l: Expr, r: Expr)
    | Not(e: Expr)

  datatype Stmt =
    | Assert(cond: Expr)
    | Let(name: string, init: Expr)
    | Assign(name: string, rhs: Expr)
    | If(test: Expr, thn: seq<Stmt>, els: seq<Stmt>)
    | For(i: string, bound: nat, body: seq<Stmt>)   // for (let i = 0n; i < bound; i++)
    | AddOutput(sats: nat, vals: seq<Expr>)

  datatype Output = Output(sats: nat, vals: seq<Value>)

  datatype State = State(vars: map<string, Value>, props: map<string, Value>, outputs: seq<Output>)

  /** `Rejected` is a failed assert; `Stuck` is an ill-typed or unbound operand. */
  datatype Outcome = Running(st: State) | Rejected | Stuck

  function EvalCompare(op: Cmp, a: Value, b: Value): Option<Value> {
    match (op, a, b)
    case (Gt, Int(m), Int(n)) => Some(Bool(m > n))
    case (Ge, Int(m), Int(n)) => Some(Bool(m >= n))
    case (Le, Int(m), Int(n)) => Some(Bool(m <= n))
    case (EqEq, Int(m), Int(n)) => Some(Bool(m == n))
    case (EqEq, Hex(m), Hex(n)) => Some(Bool(m == n))
    case _ => None
  }

  function Eval(e: Expr, st: State): Option<Value> {
    match e
    case Lit(v) => Some(v)
    case Var(x) => if x in st.vars then Some(st.vars[x]) else None
    case Prop(x) => if x in st.props then Some(st.props[x]) else None
    case Plus(l, r) =>
      (match (Eval(l, st), Eval(r, st))
       case (Some(Int(a)), Some(Int(b))) => Some(Int(a + b))
       case _ => None)
    case Compare(op, l, r) =>
      (match (Eval(l, st), Eval(r, st))
       case (Some(a), Some(b)) => EvalCompare(op, a, b)
       case _ => None)
    case Not(f) =>
      (match Eval(f, st)
       case Some(Bool(b)) => Some(Bool(!b))
       case _ => None)
  }

  function EvalAll(es: seq<Expr>, st: State): Option<seq<Value>> {
    if es == [] then Some([])
    else
      match (Eval(es[0], st), EvalAll(es[1..], st))
      case (Some(v), Some(vs)) => Some([v] + vs)
      case _ => None
  }

  lemma EvalAllOne(e: Expr, st: State)
    ensures EvalAll([e], st) == match Eval(e, st) { case Some(v) => Some([v]) case None => None }
  {
    assert [e][1..] == [];
    if Eval(e, st).Some? {
      assert [Eval(e, st).value] + [] == [Eval(e, st).value];
    }
  }

  function ExecStmt(s: Stmt, st: State): Outcome
    decreases s, 0, 0
  {
    match s
    case Assert(c) =>
      (match Eval(c, st)
       case Some(Bool(b)) => if b then Running(st) else Rejected
       case _ => Stuck)
    case Let(x, e) =>
      (match Eval(e, st)
       case Some(v) => Running(st.(vars := st.vars[x := v]))
       case None => Stuck)
    case Assign(x, e) =>
      (match Eval(e, st)
       case Some(v) => if x in st.vars then Running(st.(vars := st.vars[x := v])) else Stuck
       case None => Stuck)
    case If(c, thn, els) =>
      (match Eval(c, st)
       case Some(Bool(b)) => if b then Exec(thn, st) else Exec(els, st)
       case _ => Stuck)
    case For(i, bound, body) => ExecLoop(i, body, 0, bound, st)
    case AddOutput(sats, es) =>
      (match EvalAll(es, st)
       case Some(vs) => Running(st.(outputs := st.outputs + [Output(sats, vs)]))
       case None => Stuck)
  }

  function Exec(ss: seq<Stmt>, st: State): Outcome
    decreases ss, 0, 0
  {
    if ss == [] then Running(st)
    else
      match ExecStmt(ss[0], st)
      case Running(st') => Exec(ss[1..], st')
      case o => o
  }

  /** Iterations k..bound of a loop; the loop variable goes out of scope at the end. */
  function ExecLoop(i: string, body: seq<Stmt>, k: nat, bound: nat, st: State): Outcome
    decreases body, 1, bound - k
  {
    if k >= bound then Running(st.(vars := st.vars - {i}))
    else
      match Exec(body, st.(vars := st.vars[i := Int(k)]))
      case Running(st') => ExecLoop(i, body, k + 1, bound, st')
      case o => o
  }

  function Then(o: Outcome, ss: seq<Stmt>): Outcome {
    if o.Running? then Exec(ss, o.st) else o
  }

  lemma {:induction false} ExecAppend(a: seq<Stmt>, b: seq<Stmt>, st: State)
    ensures Exec(a + b, st) == Then(Exec(a, st), b)
  {
    if a == [] {
      assert a + b == b;
    } else {
      assert (a + b)[0] == a[0] && (a + b)[1..] == a[1..] + b;
      match ExecStmt(a[0], st) {
        case Running(st') => ExecAppend(a[1..], b, st');
        case _ =>
      }
    }
  }

  // ----- contracts: a constructor that stores its arguments, and one public method -----

  datatype Contract = Contract(props: seq<string>, params: seq<string>, body: seq<Stmt>)

  function Zip(names: seq<string>, vals: seq<Value>): map<string, Value>
    requires |names| == |vals|
  {
    if names == [] then map[]
    else Zip(names[..|names| - 1], vals[..|vals| - 1])[names[|names| - 1] := vals[|vals| - 1]]
  }

  /** Deploy with `ctorArgs`, then call the method with `args`. */
  function Call(c: Contract, ctorArgs: seq<Value>, args: seq<Value>): Outcome {
    if |ctorArgs| != |c.props| || |args| != |c.params| then Stuck
    else Exec(c.body, State(Zip(c.params, args), Zip(c.props, ctorArgs), []))
  }

  /** What a spender can observe: the verdict and the committed outputs. */
  datatype Verdict = Accept(outputs: seq<Output>) | Reject | Error

  function Spend(c: Contract, ctorArgs: seq<Value>, args: seq<Value>): Verdict {
    match Call(c, ctorArgs, args)
    case Running(st) => Accept(st.outputs)
    case Rejected => Reject
    case Stuck => Error
  }

  lemma {:induction false} ZipLookup(names: seq<string>, vals: seq<Value>, i: nat)
    requires |names| == |vals| && NoRepeats(names) && i < |names|
    ensures names[i] in Zip(names, vals) && Zip(names, vals)[names[i]] == vals[i]
  {
    if i < |names| - 1 {
      ZipLookup(names[..|names| - 1], vals[..|vals| - 1], i);
    }
  }

  lemma {:induction false} ZipKeys(names: seq<string>, vals: seq<Value>, x: string)
    requires |names| == |vals|
    ensures x in Zip(names, vals) <==> x in names
  {
    if names != [] {
      var init := names[..|names| - 1];
      ZipKeys(init, vals[..|vals| - 1], x);
      assert names == init + [names[|names| - 1]];
    }
  }
}
