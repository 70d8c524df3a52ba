/** The ANF programs of the differential fuzzer: syntax, evaluation, and the discipline that keeps
    evaluation from getting stuck. */
module Anf {
  import opened Collections
  import opened Numbers
  import opened Wrappers

  datatype ValType = Bigint | Boolean

  datatype Const = IntConst(n: int) | BoolConst(b: bool)

  datatype Operator =
    | Add | Sub | Mul
    | Eq | Ne | Lt | Gt | Le | Ge
    | And | Or
    | Div | Mod
    | Shl | Shr
    | BitAnd | BitOr | BitXor

  datatype UnaryOperator = Neg | BitNot | LogNot

  datatype AnfValue =
    | LoadParam(name: string)
    | LoadProp(name: string)
    | LoadConst(c: Const)
    | BinOp(op: Operator, left: string, right: string)
    | UnaryOp(uop: UnaryOperator, operand: string)
    | Call(func: string, args: seq<string>)
    | ArrayLiteral(elements: seq<string>)
    | Assert(value: string)
    | UpdateProp(name: string, value: string)
    | Unknown(kind: string)

  datatype Binding = Binding(name: string, value: AnfValue)

  /** A declared name with its type string. */
  datatype Decl = Decl(name: string, ty: string)

  datatype Property = Property(decl: Decl, readonly: bool, initialValue: Option<Const>)

  datatype Method = Method(name: string, params: seq<Decl>, body: seq<Binding>, isPublic: bool)

  datatype Program = Program(contractName: string, properties: seq<Property>, methods: seq<Method>)

  const BIGINT_BIN_OPS := [Add, Sub, Mul]
  const CMP_BIN_OPS := [Eq, Ne, Lt, Gt, Le, Ge]
  const BOOL_BIN_OPS := [And, Or]
  const DIV_MOD_OPS := [Div, Mod]
  const SHIFT_OPS := [Shl, Shr]
  const BITWISE_BIN_OPS := [BitAnd, BitOr, BitXor]

  predicate IsBool(op: Operator) { op.And? || op.Or? }
  predicate IsCmp(op: Operator) { op.Eq? || op.Ne? || op.Lt? || op.Gt? || op.Le? || op.Ge? }
  predicate IsDivMod(op: Operator) { op.Div? || op.Mod? }
  predicate IsShift(op: Operator) { op.Shl? || op.Shr? }

  // ----- evaluation -----

  datatype Val = IntV(n: int) | BoolV(b: bool)

  datatype State = State(vars: map<string, Val>, props: map<string, Val>)

  /** `Stuck` is an unbound name, an ill-typed operand, an unknown operation, a zero divisor
      or a negative shift amount. */
  datatype Result = Done(st: State) | AssertFailed | Stuck

  /** Shifts and bitwise operators mean whatever `bits` says, once their operands are legal. */
  function EvalBinOp(op: Operator, a: Val, b: Val, bits: (Operator, int, int) -> int): Option<Val> {
    match (a, b)
    case (IntV(m), IntV(n)) =>
      (match op
       case Add => Some(IntV(m + n))
       case Sub => Some(IntV(m - n))
       case Mul => Some(IntV(m * n))
       case Eq => Some(BoolV(m == n))
       case Ne => Some(BoolV(m != n))
       case Lt => Some(BoolV(m < n))
       case Gt => Some(BoolV(m > n))
       case Le => Some(BoolV(m <= n))
       case Ge => Some(BoolV(m >= n))
       case And => None
       case Or => None
       case Div => if n == 0 then None else Some(IntV(TruncDiv(m, n)))
       case Mod => if n == 0 then None else Some(IntV(m - n * TruncDiv(m, n)))
       case _ => if IsShift(op) && n < 0 then None else Some(IntV(bits(op, m, n))))
    case (BoolV(p), BoolV(q)) =>
      if op == And then Some(BoolV(p && q)) else if op == Or then Some(BoolV(p || q)) else None
    case _ => None
  }

  function EvalUnaryOp(op: UnaryOperator, a: Val): Option<Val> {
    match (op, a)
    case (Neg, IntV(m)) => Some(IntV(-m))
    case (BitNot, IntV(m)) => Some(IntV(-m - 1))
    case (LogNot, BoolV(p)) => Some(BoolV(!p))
    case _ => None
  }

  function Lookup(m: map<string, Val>, x: string): Option<Val> {
    if x in m then Some(m[x]) else None
  }

  /** The scalar a value-producing binding leaves on the stack. */
  function EvalValue(v: AnfValue, st: State, params: map<string, Val>, bits: (Operator, int, int) -> int): Option<Val> {
    match v
    case LoadParam(x) => Lookup(params, x)
    case LoadProp(x) => Lookup(st.props, x)
    case LoadConst(IntConst(n)) => Some(IntV(n))
    case LoadConst(BoolConst(b)) => Some(BoolV(b))
    case BinOp(op, l, r) =>
      if l in st.vars && r in st.vars then EvalBinOp(op, st.vars[l], st.vars[r], bits) else None
    case UnaryOp(op, x) => if x in st.vars then EvalUnaryOp(op, st.vars[x]) else None
    case Call(f, args) =>
      if f == "abs" && |args| == 1 && args[0] in st.vars && st.vars[args[0]].IntV?
      then Some(IntV(Abs(st.vars[args[0]].n))) else None
    case _ => None
  }

  predicate IsStatement(v: AnfValue) {
    v.ArrayLiteral? || v.Assert? || v.UpdateProp?
  }

  function Step(b: Binding, st: State, params: map<string, Val>, bits: (Operator, int, int) -> int): Result {
    match b.value
    case ArrayLiteral(es) =>
      if forall e :: e in es ==> e in st.vars && st.vars[e].IntV? then Done(st) else Stuck
    case Assert(x) =>
      if x in st.vars && st.vars[x].BoolV? then if st.vars[x].b then Done(st) else AssertFailed else Stuck
    case UpdateProp(p, x) =>
      if x in st.vars && p in st.props && (st.vars[x].IntV? <==> st.props[p].IntV?)
      then Done(st.(props := st.props[p := st.vars[x]])) else Stuck
    case v =>
      match EvalValue(v, st, params, bits)
      case Some(r) => Done(st.(vars := st.vars[b.name := r]))
      case None => Stuck
  }

  function Run(body: seq<Binding>, props: map<string, Val>, params: map<string, Val>, bits: (Operator, int, int) -> int): Result {
    if body == [] then Done(State(map[], props))
    else
      match Run(body[..|body| - 1], props, params, bits)
      case Done(st) => Step(body[|body| - 1], st, params, bits)
      case r => r
  }

  // ----- the discipline -----

  /** What is known of a reference: its type, and its value when it is a literal integer. */
  datatype Fact = Fact(ty: ValType, lit: Option<int>)

  function TypeNamed(ty: string): ValType {
    if ty == "boolean" then Boolean else Bigint
  }

  function DeclType(ds: seq<Decl>, x: string): Option<ValType> {
    if ds == [] then None
    else if ds[0].name == x then Some(TypeNamed(ds[0].ty))
    else DeclType(ds[1..], x)
  }

  function Decls(ps: seq<Property>): (ds: seq<Decl>)
    ensures |ds| == |ps|
  {
    seq(|ps|, i requires 0 <= i < |ps| => ps[i].decl)
  }

  function Typed(t: Option<ValType>): Option<Fact> {
    if t.Some? then Some(Fact(t.value, None)) else None
  }

  /** The fact of a value-producing binding; statements and undeclared loads have none. */
  function FactOf(v: AnfValue, params: seq<Decl>, props: seq<Decl>): Option<Fact> {
    match v
    case LoadParam(x) => Typed(DeclType(params, x))
    case LoadProp(x) => Typed(DeclType(props, x))
    case LoadConst(IntConst(n)) => Some(Fact(Bigint, Some(n)))
    case LoadConst(BoolConst(_)) => Some(Fact(Boolean, None))
    case BinOp(op, _, _) => Some(Fact(if IsCmp(op) || IsBool(op) then Boolean else Bigint, None))
    case UnaryOp(op, _) => Some(Fact(if op.LogNot? then Boolean else Bigint, None))
    case Call(_, _) => Some(Fact(Bigint, None))
    case _ => None
  }

  /** The references a binding adds to those before it. */
  function Learn(g: map<string, Fact>, x: string, f: Option<Fact>): map<string, Fact> {
    match f case Some(fact) => g[x := fact] case None => g
  }

  function Facts(body: seq<Binding>, params: seq<Decl>, props: seq<Decl>): map<string, Fact> {
    if body == [] then map[]
    else
      var g := Facts(body[..|body| - 1], params, props);
      var b := body[|body| - 1];
      Learn(g, b.name, FactOf(b.value, params, props))
  }

  predicate Is(g: map<string, Fact>, x: string, t: ValType) {
    x in g && g[x].ty == t
  }

  function OperandType(op: Operator): ValType {
    if IsBool(op) then Boolean else Bigint
  }

  /** Operands are distinct earlier scalars of the right type; divisors are nonzero literals and
      shift amounts non-negative literals. */
  predicate ValueOk(v: AnfValue, g: map<string, Fact>, params: seq<Decl>, props: seq<Decl>) {
    match v
    case LoadParam(x) => DeclType(params, x).Some?
    case LoadProp(x) => DeclType(props, x).Some?
    case LoadConst(_) => true
    case BinOp(op, l, r) =>
      && l != r
      && Is(g, l, OperandType(op)) && Is(g, r, OperandType(op))
      && (IsDivMod(op) ==> g[r].lit.Some? && g[r].lit.value != 0)
      && (IsShift(op) ==> g[r].lit.Some? && g[r].lit.value >= 0)
    case UnaryOp(op, x) => Is(g, x, if op.LogNot? then Boolean else Bigint)
    case Call(f, args) => f == "abs" && |args| == 1 && Is(g, args[0], Bigint)
    case ArrayLiteral(es) => NoRepeats(es) && forall i :: 0 <= i < |es| ==> Is(g, es[i], Bigint)
    case Assert(x) => Is(g, x, Boolean)
    case UpdateProp(p, x) => DeclType(props, p).Some? && Is(g, x, DeclType(props, p).value)
    case Unknown(_) => false
  }

  function NamesOf(body: seq<Binding>): (ns: seq<string>)
    ensures |ns| == |body|
  {
    seq(|body|, i requires 0 <= i < |body| => body[i].name)
  }

  function DeclNames(ds: seq<Decl>): (ns: seq<string>)
    ensures |ns| == |ds|
  {
    seq(|ds|, i requires 0 <= i < |ds| => ds[i].name)
  }

  predicate BodyOk(body: seq<Binding>, params: seq<Decl>, props: seq<Decl>) {
    && NoRepeats(NamesOf(body))
    && forall i :: 0 <= i < |body| ==> ValueOk(body[i].value, Facts(body[..i], params, props), params, props)
  }

  predicate ProgramOk(p: Program) {
    && NoRepeats(DeclNames(Decls(p.properties)))
    && forall m :: m in p.methods ==> NoRepeats(DeclNames(m.params)) && BodyOk(m.body, m.params, Decls(p.properties))
  }

  // ----- soundness -----

  predicate HasType(v: Val, t: ValType) {
    match t case Bigint => v.IntV? case Boolean => v.BoolV?
  }

  /** Arguments or property values of the declared types. */
  ghost predicate Fits(m: map<string, Val>, ds: seq<Decl>) {
    forall x :: DeclType(ds, x).Some? ==> x in m && HasType(m[x], DeclType(ds, x).value)
  }

  ghost predicate Agrees(vars: map<string, Val>, g: map<string, Fact>) {
    forall x :: x in g ==> x in vars && HasType(vars[x], g[x].ty) && (g[x].lit.Some? ==> vars[x] == IntV(g[x].lit.value))
  }

  lemma {:induction false} BinOpSound(op: Operator, a: Val, b: Val, bits: (Operator, int, int) -> int)
    requires HasType(a, OperandType(op)) && HasType(b, OperandType(op))
    requires IsDivMod(op) ==> b != IntV(0)
    requires IsShift(op) ==> b.n >= 0
    ensures EvalBinOp(op, a, b, bits).Some?
    ensures HasType(EvalBinOp(op, a, b, bits).value, if IsCmp(op) || IsBool(op) then Boolean else Bigint)
  {
  }

  lemma {:induction false} ValueSound(v: AnfValue, st: State, g: map<string, Fact>, params: map<string, Val>,
                   bits: (Operator, int, int) -> int, ps: seq<Decl>, rs: seq<Decl>)
    requires Agrees(st.vars, g) && Fits(params, ps) && Fits(st.props, rs)
    requires ValueOk(v, g, ps, rs) && !IsStatement(v)
    ensures var r, f := EvalValue(v, st, params, bits), FactOf(v, ps, rs);
            r.Some? && f.Some? && HasType(r.value, f.value.ty) && (f.value.lit.Some? ==> r.value == IntV(f.value.lit.value))
  {
    match v
    case BinOp(op, l, r) => BinOpSound(op, st.vars[l], st.vars[r], bits);
    case _ =>
  }

  lemma {:induction false} StepSound(b: Binding, st: State, g: map<string, Fact>, params: map<string, Val>,
                  bits: (Operator, int, int) -> int, ps: seq<Decl>, rs: seq<Decl>)
    requires Agrees(st.vars, g) && Fits(params, ps) && Fits(st.props, rs)
    requires ValueOk(b.value, g, ps, rs)
    ensures var r := Step(b, st, params, bits);
            && !r.Stuck?
            && (r.Done? ==> Fits(r.st.props, rs))
            && (r.Done? ==> Agrees(r.st.vars, Learn(g, b.name, FactOf(b.value, ps, rs))))
  {
    match b.value
    case ArrayLiteral(es) =>
      forall e | e in es ensures e in st.vars && st.vars[e].IntV? {
        var i :| 0 <= i < |es| && es[i] == e;
        assert Is(g, es[i], Bigint);
      }
    case Assert(x) =>
    case UpdateProp(p, x) =>
    case v => ValueSound(v, st, g, params, bits, ps, rs);
  }

  /** A checked body never gets stuck, whatever the arguments, the properties and the bit operators. */
  lemma {:induction false} BodySound(body: seq<Binding>, ps: seq<Decl>, rs: seq<Decl>,
                                     props: map<string, Val>, params: map<string, Val>, bits: (Operator, int, int) -> int)
    requires BodyOk(body, ps, rs) && Fits(params, ps) && Fits(props, rs)
    ensures var r := Run(body, props, params, bits);
            !r.Stuck? && (r.Done? ==> Fits(r.st.props, rs) && Agrees(r.st.vars, Facts(body, ps, rs)))
  {
    if body != [] {
      var init, b := body[..|body| - 1], body[|body| - 1];
      assert forall i :: 0 <= i < |init| ==> init[..i] == body[..i] && init[i] == body[i];
      assert forall i :: 0 <= i < |init| ==> NamesOf(init)[i] == NamesOf(body)[i];
      BodySound(init, ps, rs, props, params, bits);
      var r := Run(init, props, params, bits);
      if r.Done? {
        StepSound(b, r.st, Facts(init, ps, rs), params, bits, ps, rs);
      }
    }
  }

  /** No public method of a checked program ever gets stuck. */
  lemma {:induction false} ProgramSound(p: Program, m: Method, props: map<string, Val>, params: map<string, Val>, bits: (Operator, int, int) -> int)
    requires ProgramOk(p) && m in p.methods
    requires Fits(params, m.params) && Fits(props, Decls(p.properties))
    ensures !Run(m.body, props, params, bits).Stuck?
  {
    BodySound(m.body, m.params, Decls(p.properties), props, params, bits);
  }
}
