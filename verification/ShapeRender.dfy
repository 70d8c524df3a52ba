/** From picked values to a contract: what is rendered, what the generator predicts,
    and why running the one yields the other. */
module ShapeRender {
  import opened Wrappers
  import opened Text
  import opened ShapeLang
  import opened ShapeLoops
  import opened ShapeRename

  datatype Member = Member(name: string, ty: ShapeType, value: Value)

  datatype ArmStyle = Both | Asymmetric | NoElse | Nested | NestedSibling

  /** A source expression for an arm, with the value the generator says it has. */
  datatype Assignment = Assignment(expr: Expr, value: Value)

  type Arm = map<nat, Assignment>

  datatype RenderOptions = RenderOptions(
    slots: seq<Member>, fields: seq<Member>, params: seq<string>,
    guardTrue: bool, guardValue: int, arms: ArmStyle,
    thenArm: Arm, elseArm: Arm, innerThen: Arm, innerElse: Arm,
    sats: nat, swapArms: bool, loop: Option<LoopSpec>)

  function S(i: nat): string { Name('s', i) }
  function F(i: nat): string { Name('f', i) }

  // ----- rendering -----

  function SlotAssert(s: Member): Stmt {
    if s.ty == BooleanT then
      if s.value == Bool(true) then Assert(Prop(s.name)) else Assert(Not(Prop(s.name)))
    else Assert(Compare(EqEq, Prop(s.name), Lit(s.value)))
  }

  function SlotAsserts(slots: seq<Member>): seq<Stmt> {
    if slots == [] then [] else [SlotAssert(slots[0])] + SlotAsserts(slots[1..])
  }

  function LocalDecls(fields: seq<Member>, from: nat): seq<Stmt>
    decreases |fields| - from
  {
    if from >= |fields| then []
    else [Let(L(from), Prop(fields[from].name))] + LocalDecls(fields, from + 1)
  }

  /** The assignments of an arm in local order. */
  function AssignLines(arm: Arm, from: nat, k: nat): seq<Stmt>
    decreases k - from
  {
    if from >= k then []
    else (if from in arm then [Assign(L(from), arm[from].expr)] else []) + AssignLines(arm, from + 1, k)
  }

  function P0Test(op: Cmp, n: int): Expr {
    Compare(op, Var(P(0)), Lit(Int(n)))
  }

  function Branch(o: RenderOptions): Stmt {
    var k := |o.fields|;
    var inner := If(P0Test(Gt, 2000), AssignLines(o.innerThen, 0, k), AssignLines(o.innerElse, 0, k));
    var thn, els := AssignLines(o.thenArm, 0, k), AssignLines(o.elseArm, 0, k);
    if o.loop.Some? then RenderLoop(o.loop.value)
    else if o.arms == Nested then If(P0Test(Gt, 0), [inner], els)
    else if o.arms == NestedSibling then If(P0Test(Gt, 0), [inner], [])
    else if o.arms == NoElse || |o.elseArm| == 0 then If(P0Test(Gt, 0), thn, [])
    else if |o.thenArm| == 0 then If(P0Test(Le, 0), els, [])
    else if o.swapArms then If(P0Test(Le, 0), els, thn)
    else If(P0Test(Gt, 0), thn, els)
  }

  function LocalVars(from: nat, k: nat): seq<Expr>
    decreases k - from
  {
    if from >= k then [] else [Var(L(from))] + LocalVars(from + 1, k)
  }

  function Guard(o: RenderOptions): Stmt {
    Assert(P0Test(if o.guardTrue then Ge else Gt, o.guardValue))
  }

  function Prologue(o: RenderOptions): seq<Stmt> {
    [Guard(o)] + SlotAsserts(o.slots) + LocalDecls(o.fields, 0)
  }

  function Epilogue(o: RenderOptions): seq<Stmt> {
    [AddOutput(o.sats, LocalVars(0, |o.fields|))]
  }

  function Names(ms: seq<Member>): (ns: seq<string>)
    ensures |ns| == |ms|
  {
    seq(|ms|, i requires 0 <= i < |ms| => ms[i].name)
  }

  function Values(ms: seq<Member>): (vs: seq<Value>)
    ensures |vs| == |ms|
  {
    seq(|ms|, i requires 0 <= i < |ms| => ms[i].value)
  }

  function Rendered(o: RenderOptions): Contract {
    Contract(Names(o.slots + o.fields), o.params, Prologue(o) + [Branch(o)] + Epilogue(o))
  }

  /** The renderer: statements are pushed one at a time. */
  method RenderShape(o: RenderOptions) returns (c: Contract)
    ensures c == Rendered(o)
  {
    var lines := [Guard(o)];
    assert o.slots[0..] == o.slots;
    for i := 0 to |o.slots|
      invariant lines + SlotAsserts(o.slots[i..]) == [Guard(o)] + SlotAsserts(o.slots)
    {
      ghost var rest := SlotAsserts(o.slots[i + 1..]);
      assert o.slots[i..][1..] == o.slots[i + 1..];
      assert lines + ([SlotAssert(o.slots[i])] + rest) == (lines + [SlotAssert(o.slots[i])]) + rest;
      lines := lines + [SlotAssert(o.slots[i])];
    }
    assert lines == [Guard(o)] + SlotAsserts(o.slots);
    for fi := 0 to |o.fields|
      invariant lines + LocalDecls(o.fields, fi) == Prologue(o)
    {
      ghost var rest := LocalDecls(o.fields, fi + 1);
      var line := Let(L(fi), Prop(o.fields[fi].name));
      assert lines + ([line] + rest) == (lines + [line]) + rest;
      lines := lines + [line];
    }
    lines := lines + [Branch(o)];
    lines := lines + [AddOutput(o.sats, LocalVars(0, |o.fields|))];
    c := Contract(Names(o.slots + o.fields), o.params, lines);
  }

  // ----- the generator's prediction -----

  function P0(args: seq<Value>): int {
    if |args| > 0 && args[0].Int? then args[0].n else 0
  }

  /** The arm that the picked p0 takes. */
  function Taken(o: RenderOptions, p0: int): Arm {
    if o.arms == Nested || o.arms == NestedSibling then
      if p0 > 0 then (if p0 > 2000 then o.innerThen else o.innerElse) else o.elseArm
    else if p0 > 0 then o.thenArm else o.elseArm
  }

  /** Entries below `from` are left alone. */
  function Apply(arm: Arm, from: nat, vals: seq<Value>): (r: seq<Value>)
    ensures |r| == |vals|
  {
    seq(|vals|, i requires 0 <= i < |vals| => if from <= i && i in arm then arm[i].value else vals[i])
  }

  function AsInts(vals: seq<Value>): (l: seq<int>)
    ensures |l| == |vals|
  {
    seq(|vals|, i requires 0 <= i < |vals| => if vals[i].Int? then vals[i].n else 0)
  }

  function Predicted(o: RenderOptions, args: seq<Value>): (vals: seq<Value>)
    requires o.loop.Some? ==> |o.fields| >= Arity(o.loop.value.style)
    ensures |vals| == |o.fields|
  {
    if o.loop.Some? then Ints(LoopResult(o.loop.value, AsInts(Values(o.fields)), P0(args)))
    else Apply(Taken(o, P0(args)), 0, Values(o.fields))
  }

  // ----- what the generator guarantees about its options -----

  /** The expression is a literal or a parameter, and the modelled value is what it evaluates to. */
  predicate Sound(a: Assignment, params: map<string, Value>) {
    || a.expr == Lit(a.value)
    || (a.expr.Var? && a.expr.name in params && params[a.expr.name] == a.value)
  }

  ghost predicate SoundArm(arm: Arm, params: map<string, Value>) {
    forall i :: i in arm ==> Sound(arm[i], params)
  }

  predicate NumberedParams(params: seq<string>) {
    forall i :: 0 <= i < |params| ==> params[i] == P(i)
  }

  predicate NamedSlots(slots: seq<Member>) {
    forall i :: 0 <= i < |slots| ==> slots[i].name == S(i) && HasType(slots[i].value, slots[i].ty)
  }

  predicate NamedFields(fields: seq<Member>) {
    forall i :: 0 <= i < |fields| ==> fields[i].name == F(i) && HasType(fields[i].value, fields[i].ty)
  }

  predicate GoodLoop(spec: LoopSpec, fields: seq<Member>) {
    && |fields| >= Arity(spec.style)
    && (spec.style == NestedOuterRead ==> spec.inner.Some?)
    && forall i :: 0 <= i < |fields| ==> fields[i].value.Int?
  }

  ghost predicate OptionsOk(o: RenderOptions, args: seq<Value>) {
    && NamedSlots(o.slots) && NamedFields(o.fields)
    && |o.params| == |args| && |args| > 0 && NumberedParams(o.params)
    && args[0] == Int(o.guardValue)
    && (var env := Zip(o.params, args);
        SoundArm(o.thenArm, env) && SoundArm(o.elseArm, env) && SoundArm(o.innerThen, env) && SoundArm(o.innerElse, env))
    && (o.arms == NoElse || o.arms == NestedSibling ==> |o.elseArm| == 0)
    && (o.loop.Some? ==> GoodLoop(o.loop.value, o.fields))
  }

  // ----- running the pieces -----

  lemma {:induction false} ParamEnv(params: seq<string>, args: seq<Value>)
    requires |params| == |args| && NumberedParams(params)
    ensures ParamNames(Zip(params, args))
    ensures forall i :: 0 <= i < |params| ==> P(i) in Zip(params, args) && Zip(params, args)[P(i)] == args[i]
  {
    forall x | x in Zip(params, args) ensures |x| > 0 && x[0] == 'p' {
      ZipKeys(params, args, x);
    }
    forall i, j | 0 <= i < j < |params| ensures params[i] != params[j] {
      NameInjective('p', i, 'p', j);
    }
    forall i | 0 <= i < |params| ensures P(i) in Zip(params, args) && Zip(params, args)[P(i)] == args[i] {
      ZipLookup(params, args, i);
    }
  }

  ghost predicate Holds(props: map<string, Value>, ms: seq<Member>) {
    forall i :: 0 <= i < |ms| ==> ms[i].name in props && props[ms[i].name] == ms[i].value
  }

  lemma {:induction false} DeployedProps(slots: seq<Member>, fields: seq<Member>)
    requires NamedSlots(slots) && NamedFields(fields)
    ensures Holds(Zip(Names(slots + fields), Values(slots + fields)), slots)
    ensures Holds(Zip(Names(slots + fields), Values(slots + fields)), fields)
  {
    var ms := slots + fields;
    var names, vals := Names(ms), Values(ms);
    forall i, j | 0 <= i < j < |ms| ensures names[i] != names[j] {
      NameInjective('s', i, 's', j);
      if i < |slots| {
        if j >= |slots| { NameInjective('s', i, 'f', j - |slots|); }
      } else {
        NameInjective('f', i - |slots|, 'f', j - |slots|);
      }
    }
    forall i | 0 <= i < |ms| ensures ms[i].name in Zip(names, vals) && Zip(names, vals)[ms[i].name] == ms[i].value {
      ZipLookup(names, vals, i);
      assert names[i] == ms[i].name && vals[i] == ms[i].value;
    }
    assert forall i :: 0 <= i < |slots| ==> slots[i] == ms[i];
    assert forall i :: 0 <= i < |fields| ==> fields[i] == ms[|slots| + i];
  }

  /** The slots hold values of their types, under their names. */
  ghost predicate Deployed(props: map<string, Value>, slots: seq<Member>, vals: seq<Value>) {
    |vals| == |slots| && forall i :: 0 <= i < |slots| ==>
      HasType(vals[i], slots[i].ty) && slots[i].name in props && props[slots[i].name] == vals[i]
  }

  lemma RunSlotAssert(s: Member, v: Value, st: State)
    requires HasType(s.value, s.ty) && HasType(v, s.ty) && s.name in st.props && st.props[s.name] == v
    ensures ExecStmt(SlotAssert(s), st) == if v == s.value then Running(st) else Rejected
  {
    assert Eval(Prop(s.name), st) == Some(v) && Eval(Lit(s.value), st) == Some(s.value);
    if s.ty == BooleanT {
      assert Eval(Not(Prop(s.name)), st) == Some(Bool(!v.b));
    } else {
      assert Eval(Compare(EqEq, Prop(s.name), Lit(s.value)), st) == Some(Bool(v == s.value));
    }
  }

  lemma {:induction false} RunSlotAsserts(slots: seq<Member>, vals: seq<Value>, st: State)
    requires Deployed(st.props, slots, vals) && forall i :: 0 <= i < |slots| ==> HasType(slots[i].value, slots[i].ty)
    ensures Exec(SlotAsserts(slots), st) == if vals == Values(slots) then Running(st) else Rejected
  {
    if slots == [] {
      assert vals == Values(slots);
    } else {
      RunSlotAssert(slots[0], vals[0], st);
      assert SlotAsserts(slots)[0] == SlotAssert(slots[0]) && SlotAsserts(slots)[1..] == SlotAsserts(slots[1..]);
      RunSlotAsserts(slots[1..], vals[1..], st);
      assert vals == [vals[0]] + vals[1..] && Values(slots) == [slots[0].value] + Values(slots[1..]);
    }
  }

  lemma {:induction false} AddLocal(vars: map<string, Value>, params: map<string, Value>, vals: seq<Value>, v: Value)
    requires EnvIs(vars, params, vals) && ParamNames(params)
    ensures EnvIs(vars[L(|vals|) := v], params, vals + [v])
  {
    forall m: nat | m < |vals| ensures L(m) != L(|vals|) {
      NameInjective('l', m, 'l', |vals|);
    }
  }

  lemma {:induction false} RunDecls(fields: seq<Member>, from: nat, st: State, params: map<string, Value>)
    requires from <= |fields| && Holds(st.props, fields) && ParamNames(params)
    requires EnvIs(st.vars, params, Values(fields)[..from])
    ensures EndsWith(Exec(LocalDecls(fields, from), st), st, params, Values(fields))
    decreases |fields| - from
  {
    var vals := Values(fields);
    if from == |fields| {
      assert vals[..from] == vals;
    } else {
      var v := fields[from].value;
      AddLocal(st.vars, params, vals[..from], v);
      assert vals[..from] + [v] == vals[..from + 1];
      var st1 := st.(vars := st.vars[L(from) := v]);
      assert ExecStmt(Let(L(from), Prop(fields[from].name)), st) == Running(st1);
      RunDecls(fields, from + 1, st1, params);
      assert LocalDecls(fields, from)[1..] == LocalDecls(fields, from + 1);
    }
  }

  lemma AssignFirst(arm: Arm, from: nat, k: nat, st: State, v: Value)
    requires from < k && from in arm && Eval(arm[from].expr, st) == Some(v) && L(from) in st.vars
    ensures Exec(AssignLines(arm, from, k), st) == Exec(AssignLines(arm, from + 1, k), st.(vars := st.vars[L(from) := v]))
  {
    assert AssignLines(arm, from, k)[1..] == AssignLines(arm, from + 1, k);
    assert ExecStmt(Assign(L(from), arm[from].expr), st) == Running(st.(vars := st.vars[L(from) := v]));
  }

  /** The assignments of a sound arm put exactly its values into its locals. */
  lemma {:induction false} RunArm(arm: Arm, from: nat, k: nat, st: State, params: map<string, Value>, vals: seq<Value>)
    requires SoundArm(arm, params) && ParamNames(params) && |vals| == k && from <= k
    requires EnvIs(st.vars, params, vals)
    ensures EndsWith(Exec(AssignLines(arm, from, k), st), st, params, Apply(arm, from, vals))
    decreases k - from
  {
    if from == k {
      assert Apply(arm, from, vals) == vals;
    } else if from in arm {
      var a := arm[from];
      assert Eval(a.expr, st) == Some(a.value);
      SetLocal(st.vars, params, vals, from, a.value);
      AssignFirst(arm, from, k, st, a.value);
      hide Exec, Eval, SoundArm, EnvIs, ParamNames, AssignLines;
      var st1 := st.(vars := st.vars[L(from) := a.value]);
      RunArm(arm, from + 1, k, st1, params, vals[from := a.value]);
      assert Apply(arm, from + 1, vals[from := a.value]) == Apply(arm, from, vals);
    } else {
      RunArm(arm, from + 1, k, st, params, vals);
      assert Apply(arm, from + 1, vals) == Apply(arm, from, vals);
      assert AssignLines(arm, from, k) == AssignLines(arm, from + 1, k);
    }
  }

  lemma {:induction false} EmptyArm(arm: Arm, from: nat, k: nat, vals: seq<Value>)
    requires |arm| == 0
    ensures AssignLines(arm, from, k) == [] && Apply(arm, from, vals) == vals
    decreases k - from
  {
    if from < k {
      EmptyArm(arm, from + 1, k, vals);
    }
  }

  lemma {:induction false} RunIf(op: Cmp, n: int, p0: int, thn: seq<Stmt>, els: seq<Stmt>, st: State)
    requires P(0) in st.vars && st.vars[P(0)] == Int(p0) && (op == Gt || op == Le)
    ensures ExecStmt(If(P0Test(op, n), thn, els), st) ==
            if (op == Gt) == (p0 > n) then Exec(thn, st) else Exec(els, st)
  {
    assert Eval(Var(P(0)), st) == Some(Int(p0)) && Eval(Lit(Int(n)), st) == Some(Int(n));
    assert Eval(P0Test(op, n), st) == Some(Bool((op == Gt) == (p0 > n)));
  }

  lemma {:induction false} RunBranch(o: RenderOptions, args: seq<Value>, st: State)
    requires OptionsOk(o, args) && EnvIs(st.vars, Zip(o.params, args), Values(o.fields))
    ensures EndsWith(ExecStmt(Branch(o), st), st, Zip(o.params, args), Predicted(o, args))
  {
    var params, vals, k, p0 := Zip(o.params, args), Values(o.fields), |o.fields|, o.guardValue;
    ParamEnv(o.params, args);
    if o.loop.Some? {
      assert Ints(AsInts(vals)) == vals;
      RunLoop(o.loop.value, AsInts(vals), p0, st, params);
    } else {
      RunArm(Taken(o, p0), 0, k, st, params, vals);
      if |Taken(o, p0)| == 0 {
        EmptyArm(Taken(o, p0), 0, k, vals);
      }
      var thn, els := AssignLines(o.thenArm, 0, k), AssignLines(o.elseArm, 0, k);
      if o.arms == Nested || o.arms == NestedSibling {
        var ithn, iels := AssignLines(o.innerThen, 0, k), AssignLines(o.innerElse, 0, k);
        RunIf(Gt, 2000, p0, ithn, iels, st);
        RunOne(If(P0Test(Gt, 2000), ithn, iels), st);
        RunIf(Gt, 0, p0, [If(P0Test(Gt, 2000), ithn, iels)], if o.arms == Nested then els else [], st);
      } else if o.arms == NoElse || |o.elseArm| == 0 {
        RunIf(Gt, 0, p0, thn, [], st);
      } else if |o.thenArm| == 0 {
        RunIf(Le, 0, p0, els, [], st);
      } else if o.swapArms {
        RunIf(Le, 0, p0, els, thn, st);
      } else {
        RunIf(Gt, 0, p0, thn, els, st);
      }
    }
  }

  lemma {:induction false} EvalLocals(from: nat, k: nat, st: State, params: map<string, Value>, vals: seq<Value>)
    requires EnvIs(st.vars, params, vals) && |vals| == k && from <= k
    ensures EvalAll(LocalVars(from, k), st) == Some(vals[from..])
    decreases k - from
  {
    if from < k {
      EvalLocals(from + 1, k, st, params, vals);
      assert LocalVars(from, k) == [Var(L(from))] + LocalVars(from + 1, k);
      assert LocalVars(from, k)[0] == Var(L(from)) && LocalVars(from, k)[1..] == LocalVars(from + 1, k);
      assert Eval(Var(L(from)), st) == Some(vals[from]);
      assert EvalAll(LocalVars(from, k), st) == Some([vals[from]] + vals[from + 1..]);
      assert [vals[from]] + vals[from + 1..] == vals[from..];
    } else {
      assert LocalVars(from, k) == [] && vals[from..] == [];
    }
  }

  /** What the guard lets through. */
  predicate GuardHolds(o: RenderOptions, p0: int) {
    if o.guardTrue then p0 >= o.guardValue else p0 > o.guardValue
  }

  lemma RunGuard(o: RenderOptions, p0: int, st: State)
    requires P(0) in st.vars && st.vars[P(0)] == Int(p0)
    ensures Exec([Guard(o)], st) == if GuardHolds(o, p0) then Running(st) else Rejected
  {
    assert Eval(Var(P(0)), st) == Some(Int(p0)) && Eval(Lit(Int(o.guardValue)), st) == Some(Int(o.guardValue));
    assert Eval(P0Test(if o.guardTrue then Ge else Gt, o.guardValue), st) == Some(Bool(GuardHolds(o, p0)));
    RunOne(Guard(o), st);
  }

  /** The prologue rejects exactly when the guard fails or a slot holds another value than the picked one. */
  lemma {:induction false} RunPrologue(o: RenderOptions, p0: int, vals: seq<Value>, fields: seq<Member>, st: State,
                                       params: map<string, Value>)
    requires NamedSlots(o.slots) && Deployed(st.props, o.slots, vals) && Holds(st.props, fields)
    requires |fields| == |o.fields| && forall i :: 0 <= i < |fields| ==> fields[i].name == o.fields[i].name
    requires st.vars == params && ParamNames(params) && P(0) in params && params[P(0)] == Int(p0)
    ensures if GuardHolds(o, p0) && vals == Values(o.slots) then EndsWith(Exec(Prologue(o), st), st, params, Values(fields))
            else Exec(Prologue(o), st) == Rejected
  {
    RunGuard(o, p0, st);
    ExecAppend([Guard(o)] + SlotAsserts(o.slots), LocalDecls(o.fields, 0), st);
    ExecAppend([Guard(o)], SlotAsserts(o.slots), st);
    RunSlotAsserts(o.slots, vals, st);
    assert Values(fields)[..0] == [];
    SameDecls(o.fields, fields, 0);
    RunDecls(fields, 0, st, params);
  }

  lemma {:induction false} SameDecls(a: seq<Member>, b: seq<Member>, from: nat)
    requires |a| == |b| && from <= |a| && forall i :: 0 <= i < |a| ==> a[i].name == b[i].name
    ensures LocalDecls(a, from) == LocalDecls(b, from)
    decreases |a| - from
  {
    if from < |a| {
      SameDecls(a, b, from + 1);
    }
  }

  lemma {:induction false} RunEpilogue(o: RenderOptions, st: State, params: map<string, Value>, vals: seq<Value>)
    requires EnvIs(st.vars, params, vals) && |vals| == |o.fields|
    ensures Exec(Epilogue(o), st) == Running(st.(outputs := st.outputs + [Output(o.sats, vals)]))
  {
    EvalLocals(0, |o.fields|, st, params, vals);
    assert vals[0..] == vals;
    RunOne(AddOutput(o.sats, LocalVars(0, |o.fields|)), st);
  }

  lemma {:induction false} RenderedBody(o: RenderOptions, st: State)
    ensures Exec(Rendered(o).body, st) == Then(Then(Exec(Prologue(o), st), [Branch(o)]), Epilogue(o))
  {
    ExecAppend(Prologue(o) + [Branch(o)], Epilogue(o), st);
    ExecAppend(Prologue(o), [Branch(o)], st);
  }

  // ----- every deployment and every call -----

  /** Constructor arguments of the declared number and types: the slots first, then the fields. */
  predicate Deployable(o: RenderOptions, ctorArgs: seq<Value>) {
    |ctorArgs| == |o.slots| + |o.fields| &&
    forall i :: 0 <= i < |ctorArgs| ==> HasType(ctorArgs[i], (o.slots + o.fields)[i].ty)
  }

  predicate Callable(o: RenderOptions, args: seq<Value>) {
    |args| == |o.params| > 0 && args[0].Int?
  }

  function WithValues(ms: seq<Member>, vals: seq<Value>): (r: seq<Member>)
    requires |ms| == |vals|
    ensures |r| == |ms|
  {
    seq(|ms|, i requires 0 <= i < |ms| == |vals| => ms[i].(value := vals[i]))
  }

  /** An arm whose parameters take the values of another call. */
  function Revalued(arm: Arm, params: map<string, Value>): Arm {
    map i | i in arm ::
      if arm[i].expr.Var? && arm[i].expr.name in params then arm[i].(value := params[arm[i].expr.name]) else arm[i]
  }

  /** The same contract as if the deployed fields and the call's arguments had been picked. */
  function Called(o: RenderOptions, ctorArgs: seq<Value>, args: seq<Value>): RenderOptions
    requires Deployable(o, ctorArgs) && Callable(o, args)
  {
    var env := Zip(o.params, args);
    o.(fields := WithValues(o.fields, ctorArgs[|o.slots|..]), guardValue := args[0].n,
       thenArm := Revalued(o.thenArm, env), elseArm := Revalued(o.elseArm, env),
       innerThen := Revalued(o.innerThen, env), innerElse := Revalued(o.innerElse, env))
  }

  lemma {:induction false} RevaluedSound(arm: Arm, params: seq<string>, picked: seq<Value>, args: seq<Value>)
    requires |params| == |picked| == |args| && SoundArm(arm, Zip(params, picked))
    ensures SoundArm(Revalued(arm, Zip(params, args)), Zip(params, args))
    ensures Revalued(arm, Zip(params, args)).Keys == arm.Keys
  {
    var env := Zip(params, args);
    forall i | i in arm ensures Sound(Revalued(arm, env)[i], env) {
      assert Sound(arm[i], Zip(params, picked));
      if arm[i].expr.Var? {
        ZipKeys(params, picked, arm[i].expr.name);
        ZipKeys(params, args, arm[i].expr.name);
      }
    }
  }

  lemma {:induction false} RevaluedLines(arm: Arm, params: map<string, Value>, from: nat, k: nat)
    ensures AssignLines(Revalued(arm, params), from, k) == AssignLines(arm, from, k)
    ensures |Revalued(arm, params)| == |arm|
    decreases k - from
  {
    assert Revalued(arm, params).Keys == arm.Keys;
    SameCount(arm, Revalued(arm, params));
    if from < k {
      RevaluedLines(arm, params, from + 1, k);
    }
  }

  lemma {:induction false} CalledFields(o: RenderOptions, ctorArgs: seq<Value>)
    requires NamedFields(o.fields) && Deployable(o, ctorArgs) && (o.loop.Some? ==> GoodLoop(o.loop.value, o.fields))
    ensures var fields := WithValues(o.fields, ctorArgs[|o.slots|..]);
            NamedFields(fields) && (o.loop.Some? ==> GoodLoop(o.loop.value, fields))
  {
    var fields := WithValues(o.fields, ctorArgs[|o.slots|..]);
    forall i | 0 <= i < |fields| ensures HasType(fields[i].value, fields[i].ty) {
      assert fields[i].value == ctorArgs[|o.slots| + i] && o.fields[i] == (o.slots + o.fields)[|o.slots| + i];
    }
    if o.loop.Some? {
      forall i | 0 <= i < |fields| ensures fields[i].value.Int? {
        assert HasType(o.fields[i].value, o.fields[i].ty) && o.fields[i].value.Int?;
      }
    }
  }

  lemma {:induction false} CalledBranch(o: RenderOptions, ctorArgs: seq<Value>, args: seq<Value>)
    requires Deployable(o, ctorArgs) && Callable(o, args)
    ensures Branch(Called(o, ctorArgs, args)) == Branch(o)
  {
    var env, k := Zip(o.params, args), |o.fields|;
    RevaluedLines(o.thenArm, env, 0, k);
    RevaluedLines(o.elseArm, env, 0, k);
    RevaluedLines(o.innerThen, env, 0, k);
    RevaluedLines(o.innerElse, env, 0, k);
    hide AssignLines, Revalued, Zip, RenderLoop, P0Test, Deployable;
  }

  lemma {:induction false} CalledOk(o: RenderOptions, picked: seq<Value>, ctorArgs: seq<Value>, args: seq<Value>)
    requires OptionsOk(o, picked) && Deployable(o, ctorArgs) && Callable(o, args)
    ensures OptionsOk(Called(o, ctorArgs, args), args)
  {
    CalledFields(o, ctorArgs);
    RevaluedSound(o.thenArm, o.params, picked, args);
    RevaluedSound(o.elseArm, o.params, picked, args);
    RevaluedSound(o.innerThen, o.params, picked, args);
    RevaluedSound(o.innerElse, o.params, picked, args);
    SameCount(o.elseArm, Revalued(o.elseArm, Zip(o.params, args)));
    hide Revalued, SoundArm, Zip, NamedFields, NamedSlots, GoodLoop, Deployable, NumberedParams;
  }

  lemma SameCount<A, B>(a: map<A, B>, b: map<A, B>)
    requires a.Keys == b.Keys
    ensures |a| == |b|
  {
    assert |a| == |a.Keys| && |b| == |b.Keys|;
  }

  lemma {:induction false} DeployedMembers(o: RenderOptions, ctorArgs: seq<Value>)
    requires NamedSlots(o.slots) && NamedFields(o.fields) && Deployable(o, ctorArgs)
    ensures var props := Zip(Names(o.slots + o.fields), ctorArgs);
            && Deployed(props, o.slots, ctorArgs[..|o.slots|])
            && Holds(props, WithValues(o.fields, ctorArgs[|o.slots|..]))
  {
    var n, ms := |o.slots|, o.slots + o.fields;
    var slots, fields := WithValues(o.slots, ctorArgs[..n]), WithValues(o.fields, ctorArgs[n..]);
    forall i | 0 <= i < n ensures HasType(slots[i].value, slots[i].ty) {
      assert ms[i] == o.slots[i];
    }
    forall i | 0 <= i < |fields| ensures HasType(fields[i].value, fields[i].ty) {
      assert ms[n + i] == o.fields[i];
    }
    assert Names(slots + fields) == Names(ms) && Values(slots + fields) == ctorArgs;
    DeployedProps(slots, fields);
    forall i | 0 <= i < n ensures HasType(ctorArgs[i], o.slots[i].ty) {
      assert slots[i].value == ctorArgs[i];
    }
  }

  /** The rendered contract under every deployment of the declared types and every call with an integer
      first: it rejects exactly when the guard fails or some slot was not deployed with its picked value,
      and otherwise commits what the generator's arithmetic predicts for that call. */
  lemma {:induction false} RenderedOnAnyCall(o: RenderOptions, picked: seq<Value>, ctorArgs: seq<Value>, args: seq<Value>)
    requires OptionsOk(o, picked) && Deployable(o, ctorArgs) && Callable(o, args)
    ensures Spend(Rendered(o), ctorArgs, args) ==
            if (if o.guardTrue then args[0].n >= o.guardValue else args[0].n > o.guardValue)
               && forall i :: 0 <= i < |o.slots| ==> ctorArgs[i] == o.slots[i].value
            then Accept([Output(o.sats, Predicted(Called(o, ctorArgs, args), args))])
            else Reject
  {
    var c, called := Rendered(o), Called(o, ctorArgs, args);
    var vals, params := ctorArgs[..|o.slots|], Zip(o.params, args);
    var st := State(params, Zip(c.props, ctorArgs), []);
    CalledOk(o, picked, ctorArgs, args);
    CalledBranch(o, ctorArgs, args);
    DeployedMembers(o, ctorArgs);
    ParamEnv(o.params, args);
    assert vals == Values(o.slots) <==> forall i :: 0 <= i < |o.slots| ==> ctorArgs[i] == o.slots[i].value;
    RunPrologue(o, args[0].n, vals, called.fields, st, params);
    RenderedBody(o, st);
    if GuardHolds(o, args[0].n) && vals == Values(o.slots) {
      RunRest(o, called, args, st);
    }
  }

  lemma {:induction false} RunRest(o: RenderOptions, called: RenderOptions, args: seq<Value>, st: State)
    requires OptionsOk(called, args) && Branch(called) == Branch(o) && called.params == o.params
    requires |called.fields| == |o.fields| && called.sats == o.sats && st.outputs == []
    requires EndsWith(Exec(Prologue(o), st), st, Zip(o.params, args), Values(called.fields))
    ensures var end := Then(Then(Exec(Prologue(o), st), [Branch(o)]), Epilogue(o));
            end.Running? && end.st.outputs == [Output(o.sats, Predicted(called, args))]
  {
    var st1 := Exec(Prologue(o), st).st;
    RunBranch(called, args, st1);
    RunOne(Branch(o), st1);
    RunEpilogue(o, ExecStmt(Branch(o), st1).st, Zip(o.params, args), Predicted(called, args));
  }

  /** The rendered contract, deployed and called with the picked values, is accepted exactly when the
      guard was rendered true, and then commits exactly the predicted state. */
  lemma {:induction false} RenderedMeetsPrediction(o: RenderOptions, args: seq<Value>)
    requires OptionsOk(o, args)
    ensures Spend(Rendered(o), Values(o.slots + o.fields), args) ==
            if o.guardTrue then Accept([Output(o.sats, Predicted(o, args))]) else Reject
  {
    var ctorArgs := Values(o.slots + o.fields);
    assert forall i :: 0 <= i < |o.slots| ==> ctorArgs[i] == o.slots[i].value;
    forall i | 0 <= i < |ctorArgs| ensures HasType(ctorArgs[i], (o.slots + o.fields)[i].ty) {
    }
    RenderedOnAnyCall(o, args, ctorArgs, args);
    PickedCall(o, args);
  }

  /** Called with the picked values, the picked contract is the contract itself. */
  lemma {:induction false} PickedCall(o: RenderOptions, args: seq<Value>)
    requires OptionsOk(o, args) && Deployable(o, Values(o.slots + o.fields))
    ensures Called(o, Values(o.slots + o.fields), args) == o
  {
    assert Values(o.slots + o.fields)[|o.slots|..] == Values(o.fields);
    assert WithValues(o.fields, Values(o.fields)) == o.fields;
    var env := Zip(o.params, args);
    assert forall arm :: SoundArm(arm, env) ==> Revalued(arm, env) == arm by {
      forall arm | SoundArm(arm, env) ensures Revalued(arm, env) == arm {
        RevaluedPicked(arm, env);
      }
    }
  }

  lemma RevaluedPicked(arm: Arm, env: map<string, Value>)
    requires SoundArm(arm, env)
    ensures Revalued(arm, env) == arm
  {
    forall i | i in arm ensures Revalued(arm, env)[i] == arm[i] {
      assert Sound(arm[i], env);
    }
  }

  // ----- the metamorphic variants -----

  /** Exchanging the arms and negating the condition changes no verdict and no output,
      for any deployment and any call. */
  lemma {:induction false} SwapPreservesSpend(o: RenderOptions, ctorArgs: seq<Value>, args: seq<Value>)
    ensures Spend(Rendered(o.(swapArms := true)), ctorArgs, args) == Spend(Rendered(o.(swapArms := false)), ctorArgs, args)
  {
    var o1, o2 := o.(swapArms := true), o.(swapArms := false);
    var c1, c2 := Rendered(o1), Rendered(o2);
    if |ctorArgs| == |c1.props| && |args| == |c1.params| {
      var st := State(Zip(c1.params, args), Zip(c1.props, ctorArgs), []);
      RenderedBody(o1, st);
      RenderedBody(o2, st);
      assert Prologue(o1) == Prologue(o2) == Prologue(o);
      if Exec(Prologue(o), st).Running? {
        var st1 := Exec(Prologue(o), st).st;
        RunOne(Branch(o1), st1);
        RunOne(Branch(o2), st1);
        SwapIf(AssignLines(o.thenArm, 0, |o.fields|), AssignLines(o.elseArm, 0, |o.fields|), st1);
      }
    }
  }

  lemma {:induction false} SwapIf(thn: seq<Stmt>, els: seq<Stmt>, st: State)
    ensures ExecStmt(If(P0Test(Le, 0), els, thn), st) == ExecStmt(If(P0Test(Gt, 0), thn, els), st)
  {
    var v := Eval(Var(P(0)), st);
    assert Eval(Lit(Int(0)), st) == Some(Int(0));
    if v.Some? && v.value.Int? {
      RunIf(Le, 0, v.value.n, els, thn, st);
      RunIf(Gt, 0, v.value.n, thn, els, st);
    } else {
      assert Eval(P0Test(Le, 0), st) == None && Eval(P0Test(Gt, 0), st) == None;
    }
  }

  lemma {:induction false} PlainArm(arm: Arm, from: nat, k: nat, params: map<string, Value>)
    requires SoundArm(arm, params) && ParamNames(params)
    ensures PlainStmts(AssignLines(arm, from, k))
    decreases k - from
  {
    if from < k {
      PlainArm(arm, from + 1, k, params);
      assert L(from)[0] == 'l';
    }
  }

  lemma {:induction false} PlainDecls(fields: seq<Member>, from: nat)
    requires NamedFields(fields)
    ensures PlainStmts(LocalDecls(fields, from))
    decreases |fields| - from
  {
    if from < |fields| {
      PlainDecls(fields, from + 1);
      assert L(from)[0] == 'l' && F(from)[0] == 'f';
    }
  }

  lemma {:induction false} PlainSlots(slots: seq<Member>)
    requires forall s :: s in slots ==> |s.name| > 0 && s.name[0] == 's'
    ensures PlainStmts(SlotAsserts(slots))
  {
    if slots != [] {
      PlainSlots(slots[1..]);
      var s := slots[0];
      assert Plain(s.name) && PlainExpr(Prop(s.name)) && PlainExpr(Lit(s.value)) && PlainExpr(Not(Prop(s.name)));
      assert PlainStmt(SlotAssert(s));
    }
  }

  lemma {:induction false} PlainLocals(from: nat, k: nat)
    ensures forall e :: e in LocalVars(from, k) ==> PlainExpr(e)
    decreases k - from
  {
    if from < k {
      PlainLocals(from + 1, k);
      assert L(from)[0] == 'l';
    }
  }

  lemma {:induction false} PlainTest(op: Cmp, n: int)
    ensures PlainExpr(P0Test(op, n))
  {
    assert P(0)[0] == 'p';
    assert PlainExpr(Var(P(0))) && PlainExpr(Lit(Int(n)));
  }

  lemma {:induction false} PlainLoop(spec: LoopSpec)
    ensures PlainStmt(RenderLoop(spec))
  {
    assert Plain(L(0)) && Plain(L(1)) && Plain(P(0)) by {
      assert L(0)[0] == 'l' && L(1)[0] == 'l' && P(0)[0] == 'p';
    }
    assert PlainStmts(RenderLoopBody(spec.style));
    if spec.inner.Some? {
      var inner := For("j", spec.inner.value, RenderLoopBody(spec.style));
      assert PlainStmt(inner) && PlainStmt(AddTo(L(1), L(0)));
    }
  }

  lemma PlainIf(c: Expr, thn: seq<Stmt>, els: seq<Stmt>)
    requires PlainExpr(c) && PlainStmts(thn) && PlainStmts(els)
    ensures PlainStmt(If(c, thn, els)) && PlainStmts([If(c, thn, els)])
  {
    hide PlainExpr;
  }

  lemma PlainNothing()
    ensures PlainStmts([])
  {
  }

  lemma {:induction false} PlainBranch(o: RenderOptions, args: seq<Value>)
    requires OptionsOk(o, args)
    ensures PlainStmt(Branch(o))
  {
    ParamEnv(o.params, args);
    var params, k := Zip(o.params, args), |o.fields|;
    PlainArm(o.thenArm, 0, k, params);
    PlainArm(o.elseArm, 0, k, params);
    PlainArm(o.innerThen, 0, k, params);
    PlainArm(o.innerElse, 0, k, params);
    PlainTest(Gt, 0);
    PlainTest(Le, 0);
    PlainTest(Gt, 2000);
    PlainNothing();
    if o.loop.Some? { PlainLoop(o.loop.value); }
    hide OptionsOk, PlainStmt, PlainStmts, PlainExpr, AssignLines, P0Test, RenderLoop, Zip;
    var inner := If(P0Test(Gt, 2000), AssignLines(o.innerThen, 0, k), AssignLines(o.innerElse, 0, k));
    var thn, els := AssignLines(o.thenArm, 0, k), AssignLines(o.elseArm, 0, k);
    PlainIf(P0Test(Gt, 2000), AssignLines(o.innerThen, 0, k), AssignLines(o.innerElse, 0, k));
    PlainIf(P0Test(Gt, 0), [inner], els);
    PlainIf(P0Test(Gt, 0), [inner], []);
    PlainIf(P0Test(Gt, 0), thn, []);
    PlainIf(P0Test(Le, 0), els, []);
    PlainIf(P0Test(Le, 0), els, thn);
    PlainIf(P0Test(Gt, 0), thn, els);
  }

  lemma {:induction false} PlainPrologue(o: RenderOptions, args: seq<Value>)
    requires OptionsOk(o, args)
    ensures PlainStmts(Prologue(o))
  {
    PlainDecls(o.fields, 0);
    forall s | s in o.slots ensures |s.name| > 0 && s.name[0] == 's' {
    }
    PlainSlots(o.slots);
    PlainTest(if o.guardTrue then Ge else Gt, o.guardValue);
    assert PlainStmt(Guard(o));
  }

  lemma {:induction false} PlainNames(o: RenderOptions, args: seq<Value>)
    requires OptionsOk(o, args)
    ensures forall x :: x in Names(o.slots + o.fields) || x in o.params ==> Plain(x)
  {
    forall x | x in Names(o.slots + o.fields) ensures Plain(x) {
      var i :| 0 <= i < |o.slots + o.fields| && x == (o.slots + o.fields)[i].name;
    }
    forall x | x in o.params ensures Plain(x) {
      var i :| 0 <= i < |o.params| && x == P(i);
    }
  }

  /** Renaming the merged locals of a generated contract changes no verdict and no output,
      for any deployment and any call. */
  lemma {:induction false} RenamePreservesRendered(o: RenderOptions, args: seq<Value>, ctorArgs': seq<Value>, args': seq<Value>)
    requires OptionsOk(o, args)
    ensures Spend(RenameLocals(Rendered(o)), ctorArgs', args') == Spend(Rendered(o), ctorArgs', args')
  {
    PlainPrologue(o, args);
    PlainBranch(o, args);
    PlainLocals(0, |o.fields|);
    PlainNames(o, args);
    RenamePreservesSpend(Rendered(o), ctorArgs', args');
  }
}
