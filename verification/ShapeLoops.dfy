/** Loop-carried locals: the arithmetic model of a loop, the loop that is rendered, and their agreement. */
module ShapeLoops {
  import opened Wrappers
  import opened Text
  import opened ShapeLang

  datatype LoopStyle = Single | Independent | CrossRead | ReadBefore | NestedCrossRead | NestedOuterRead

  datatype LoopSpec = LoopSpec(style: LoopStyle, outer: nat, inner: Option<nat>) {
    /** The model treats a missing inner bound as one iteration. */
    function Inner(): nat {
      if inner.Some? then inner.value else 1
    }
  }

  /** How many carried locals a style touches. */
  function Arity(style: LoopStyle): nat {
    if style == Single then 1 else 2
  }

  // ----- closed forms -----

  /** 1 + 2 + ... + t. */
  function Triangle(t: nat): nat {
    if t == 0 then 0 else Triangle(t - 1) + t
  }

  lemma {:induction false} TriangleClosed(t: nat)
    ensures Triangle(t) == t * (t + 1) / 2
    ensures 2 * Triangle(t) == t * (t + 1)
  {
    if t > 0 {
      TriangleClosed(t - 1);
      assert t * (t + 1) == (t - 1) * t + 2 * t;
    }
  }

  lemma Distribute(x: int, y: int, z: int)
    ensures (x + y) * z == x * z + y * z && z * (x + y) == z * x + z * y
  {
  }

  /** What closing an outer iteration adds to the second local. */
  lemma OuterSum(step: int, inner: nat, i: nat)
    ensures step * inner * Triangle(i + 1) == step * inner * Triangle(i) + (i * inner + inner) * step
  {
    var q := step * inner;
    Distribute(Triangle(i), i + 1, q);
    assert q * (i + 1) == (i + 1) * inner * step == (i * inner + inner) * step;
  }

  /** The carried locals after `i` full outer iterations and `j` inner ones of the next. */
  function After(style: LoopStyle, inner: nat, init: seq<int>, step: int, i: nat, j: nat): (l: seq<int>)
    requires |init| >= Arity(style)
    ensures |l| == |init|
  {
    var t := i * inner + j;
    var a := init[0];
    match style
    case Single => init[0 := a + t * step]
    case Independent => init[0 := a + t * step][1 := init[1] + t * step]
    case CrossRead => init[0 := a + t * step][1 := init[1] + t * a + step * Triangle(t)]
    case NestedCrossRead => init[0 := a + t * step][1 := init[1] + t * a + step * Triangle(t)]
    case ReadBefore => init[0 := a + t * step][1 := init[1] + t * a + step * (Triangle(t) - t)]
    case NestedOuterRead => init[0 := a + t * step][1 := init[1] + i * a + step * inner * Triangle(i)]
  }

  /** The whole loop. */
  function LoopResult(spec: LoopSpec, init: seq<int>, step: int): seq<int>
    requires |init| >= Arity(spec.style)
  {
    After(spec.style, spec.Inner(), init, step, spec.outer, 0)
  }

  // ----- one iteration -----

  /** The statements of one inner iteration, on values. */
  function BodyStep(style: LoopStyle, l: seq<int>, step: int): (r: seq<int>)
    requires |l| >= Arity(style)
    ensures |r| == |l|
  {
    match style
    case Single => l[0 := l[0] + step]
    case Independent => l[0 := l[0] + step][1 := l[1] + step]
    case CrossRead => l[0 := l[0] + step][1 := l[1] + (l[0] + step)]
    case NestedCrossRead => l[0 := l[0] + step][1 := l[1] + (l[0] + step)]
    case ReadBefore => l[1 := l[1] + l[0]][0 := l[0] + step]
    case NestedOuterRead => l[0 := l[0] + step]
  }

  /** The statement that closes an outer iteration. */
  function OuterStep(style: LoopStyle, l: seq<int>): (r: seq<int>)
    requires |l| >= Arity(style)
    ensures |r| == |l|
  {
    if style == NestedOuterRead then l[1 := l[1] + l[0]] else l
  }

  lemma AfterStart(style: LoopStyle, inner: nat, init: seq<int>, step: int)
    requires |init| >= Arity(style)
    ensures After(style, inner, init, step, 0, 0) == init
  {
    assert 0 * inner == 0 && 0 * init[0] == 0 && step * 0 == 0 && step * inner * 0 == 0;
  }

  lemma InnerAdvances(style: LoopStyle, inner: nat, init: seq<int>, step: int, i: nat, j: nat)
    requires |init| >= Arity(style)
    ensures After(style, inner, init, step, i, j + 1) == BodyStep(style, After(style, inner, init, step, i, j), step)
  {
    var t := i * inner + j;
    assert i * inner + (j + 1) == t + 1;
    Distribute(t, 1, step);
    Distribute(t, 1, init[0]);
    Distribute(Triangle(t), t + 1, step);
    Distribute(Triangle(t) - t, t, step);
    assert Triangle(t + 1) == Triangle(t) + (t + 1);
    var l, r := BodyStep(style, After(style, inner, init, step, i, j), step), After(style, inner, init, step, i, j + 1);
    assert l[0] == r[0];
    assert style != Single ==> l[1] == r[1];
  }

  lemma OuterAdvances(style: LoopStyle, inner: nat, init: seq<int>, step: int, i: nat)
    requires |init| >= Arity(style)
    ensures After(style, inner, init, step, i + 1, 0) == OuterStep(style, After(style, inner, init, step, i, inner))
  {
    assert (i + 1) * inner == i * inner + inner;
    if style == NestedOuterRead {
      Distribute(i, 1, init[0]);
      OuterSum(step, inner, i);
    }
  }

  // ----- the model -----

  /** The generator's own evaluation of the loop, on a private copy of the initial values. */
  method ModelLoop(spec: LoopSpec, init: seq<int>, step: int) returns (post: seq<int>)
    requires |init| >= Arity(spec.style)
    ensures post == LoopResult(spec, init, step)
  {
    var l := new int[|init|](k requires 0 <= k < |init| => init[k]);
    var inner := spec.Inner();
    assert l[..] == init;
    AfterStart(spec.style, inner, init, step);
    for i := 0 to spec.outer
      invariant l[..] == After(spec.style, inner, init, step, i, 0)
    {
      for j := 0 to inner
        invariant l[..] == After(spec.style, inner, init, step, i, j)
      {
        InnerAdvances(spec.style, inner, init, step, i, j);
        ghost var before := l[..];
        match spec.style {
          case Single =>
            l[0] := l[0] + step;
          case Independent =>
            l[0] := l[0] + step;
            l[1] := l[1] + step;
          case CrossRead =>
            l[0] := l[0] + step;
            l[1] := l[1] + l[0];
          case NestedCrossRead =>
            l[0] := l[0] + step;
            l[1] := l[1] + l[0];
          case ReadBefore =>
            l[1] := l[1] + l[0];
            l[0] := l[0] + step;
          case NestedOuterRead =>
            l[0] := l[0] + step;
        }
        assert l[..] == BodyStep(spec.style, before, step);
      }
      OuterAdvances(spec.style, inner, init, step, i);
      ghost var before := l[..];
      if spec.style == NestedOuterRead {
        l[1] := l[1] + l[0];
      }
      assert l[..] == OuterStep(spec.style, before);
    }
    post := l[..];
  }

  // ----- the rendered loop -----

  function L(k: nat): string { Name('l', k) }
  function P(k: nat): string { Name('p', k) }

  function AddTo(x: string, y: string): Stmt {
    Assign(x, Plus(Var(x), Var(y)))
  }

  function RenderLoopBody(style: LoopStyle): seq<Stmt> {
    match style
    case Single => [AddTo(L(0), P(0))]
    case Independent => [AddTo(L(0), P(0)), AddTo(L(1), P(0))]
    case CrossRead => [AddTo(L(0), P(0)), AddTo(L(1), L(0))]
    case NestedCrossRead => [AddTo(L(0), P(0)), AddTo(L(1), L(0))]
    case ReadBefore => [AddTo(L(1), L(0)), AddTo(L(0), P(0))]
    case NestedOuterRead => [AddTo(L(0), P(0))]
  }

  /** An inner loop, then the outer read of the one style that has it. */
  function NestedBody(style: LoopStyle, inner: nat): seq<Stmt> {
    [For("j", inner, RenderLoopBody(style))] + if style == NestedOuterRead then [AddTo(L(1), L(0))] else []
  }

  function RenderLoop(spec: LoopSpec): Stmt {
    For("i", spec.outer,
        if spec.inner.None? then RenderLoopBody(spec.style) else NestedBody(spec.style, spec.inner.value))
  }

  /** Rendering drops the outer read when there is no inner loop to put it after. */
  function RenderedStyle(spec: LoopSpec): LoopStyle {
    if spec.style == NestedOuterRead && spec.inner.None? then Single else spec.style
  }

  // ----- environments of a generated method -----

  /** The parameters keep their values and local k holds vals[k]. */
  ghost predicate EnvIs(vars: map<string, Value>, params: map<string, Value>, vals: seq<Value>) {
    && (forall x :: x in params ==> x in vars && vars[x] == params[x])
    && (forall k :: 0 <= k < |vals| ==> L(k) in vars && vars[L(k)] == vals[k])
  }

  ghost predicate ParamNames(params: map<string, Value>) {
    forall x :: x in params ==> |x| > 0 && x[0] == 'p'
  }

  lemma SetLocal(vars: map<string, Value>, params: map<string, Value>, vals: seq<Value>, k: nat, v: Value)
    requires EnvIs(vars, params, vals) && ParamNames(params) && k < |vals|
    ensures EnvIs(vars[L(k) := v], params, vals[k := v])
  {
    forall m: nat | m < |vals| ensures L(m) == L(k) ==> m == k {
      NameInjective('l', m, 'l', k);
    }
  }

  lemma SetOther(vars: map<string, Value>, params: map<string, Value>, vals: seq<Value>, x: string, v: Value)
    requires EnvIs(vars, params, vals) && ParamNames(params) && |x| > 0 && x[0] != 'p' && x[0] != 'l'
    ensures EnvIs(vars[x := v], params, vals) && EnvIs(vars - {x}, params, vals)
  {
    forall m: nat | m < |vals| ensures L(m) != x {
      assert L(m)[0] == 'l';
    }
  }

  function Ints(l: seq<int>): (vs: seq<Value>)
    ensures |vs| == |l|
  {
    seq(|l|, k requires 0 <= k < |l| => Int(l[k]))
  }

  /** `o` is a normal end that touched nothing but local values, now `vals`. */
  ghost predicate EndsWith(o: Outcome, st: State, params: map<string, Value>, vals: seq<Value>) {
    && o.Running?
    && EnvIs(o.st.vars, params, vals)
    && o.st.props == st.props && o.st.outputs == st.outputs
  }

  lemma RunAddTo(st: State, params: map<string, Value>, l: seq<int>, k: nat, y: string, amount: int)
    requires EnvIs(st.vars, params, Ints(l)) && ParamNames(params) && k < |l|
    requires y in st.vars && st.vars[y] == Int(amount)
    ensures ExecStmt(AddTo(L(k), y), st) == Running(st.(vars := st.vars[L(k) := Int(l[k] + amount)]))
    ensures EnvIs(st.vars[L(k) := Int(l[k] + amount)], params, Ints(l[k := l[k] + amount]))
  {
    assert st.vars[L(k)] == Ints(l)[k] == Int(l[k]);
    assert Eval(Var(L(k)), st) == Some(Int(l[k])) && Eval(Var(y), st) == Some(Int(amount));
    assert Eval(Plus(Var(L(k)), Var(y)), st) == Some(Int(l[k] + amount));
    SetLocal(st.vars, params, Ints(l), k, Int(l[k] + amount));
    assert Ints(l)[k := Int(l[k] + amount)] == Ints(l[k := l[k] + amount]);
  }

  lemma RunOne(a: Stmt, st: State)
    ensures Exec([a], st) == ExecStmt(a, st)
  {
    assert [a][1..] == [];
  }

  lemma RunTwo(a: Stmt, b: Stmt, st: State)
    ensures Exec([a, b], st) ==
            if ExecStmt(a, st).Running? then ExecStmt(b, ExecStmt(a, st).st) else ExecStmt(a, st)
  {
    assert [a, b] == [a] + [b];
    ExecAppend([a], [b], st);
    RunOne(a, st);
    if ExecStmt(a, st).Running? {
      RunOne(b, ExecStmt(a, st).st);
    }
  }

  /** Two additions in a row; the second may read what the first wrote. */
  lemma RunTwoAdds(st: State, params: map<string, Value>, l: seq<int>, k: nat, y: string, amount: int,
                   m: nat, z: string, more: int, r: seq<int>)
    requires EnvIs(st.vars, params, Ints(l)) && ParamNames(params) && k < |l| && m < |l|
    requires y in st.vars && st.vars[y] == Int(amount)
    requires if z == L(k) then more == l[k] + amount else z in st.vars && st.vars[z] == Int(more)
    requires var l1 := l[k := l[k] + amount]; r == l1[m := l1[m] + more]
    ensures EndsWith(Exec([AddTo(L(k), y), AddTo(L(m), z)], st), st, params, Ints(r))
  {
    var l1 := l[k := l[k] + amount];
    RunAddTo(st, params, l, k, y, amount);
    RunAddTo(st.(vars := st.vars[L(k) := Int(l1[k])]), params, l1, m, z, more);
    RunTwo(AddTo(L(k), y), AddTo(L(m), z), st);
  }

  /** A body of two additions to locals k and m, each adding the parameter or local 0. */
  lemma RunPair(body: seq<Stmt>, st: State, params: map<string, Value>, l: seq<int>, r: seq<int>, step: int,
                k: nat, fromParam: bool, m: nat, alsoFromParam: bool)
    requires EnvIs(st.vars, params, Ints(l)) && ParamNames(params) && |l| >= 2
    requires P(0) in params && params[P(0)] == Int(step) && k <= 1 && m <= 1
    requires body == [AddTo(L(k), if fromParam then P(0) else L(0)), AddTo(L(m), if alsoFromParam then P(0) else L(0))]
    requires var l1 := l[k := l[k] + if fromParam then step else l[0]];
             r == l1[m := l1[m] + if alsoFromParam then step else l1[0]]
    ensures EndsWith(Exec(body, st), st, params, Ints(r))
  {
    assert st.vars[L(0)] == Ints(l)[0] == Int(l[0]);
    assert P(0)[0] == 'p' && L(0)[0] == 'l' && L(k)[0] == 'l';
    NameInjective('l', k, 'l', 0);
    var amount := if fromParam then step else l[0];
    var more := if alsoFromParam then step else if k == 0 then l[0] + amount else l[0];
    RunTwoAdds(st, params, l, k, body[0].rhs.r.name, amount, m, body[1].rhs.r.name, more, r);
  }

  /** One iteration of the rendered body is one step of the model. */
  lemma RunBody(style: LoopStyle, st: State, params: map<string, Value>, l: seq<int>, step: int)
    requires EnvIs(st.vars, params, Ints(l)) && ParamNames(params) && |l| >= Arity(style)
    requires P(0) in params && params[P(0)] == Int(step)
    ensures EndsWith(Exec(RenderLoopBody(style), st), st, params, Ints(BodyStep(style, l, step)))
  {
    var body, r := RenderLoopBody(style), BodyStep(style, l, step);
    if style == Single || style == NestedOuterRead {
      RunAddTo(st, params, l, 0, P(0), step);
      RunOne(body[0], st);
    } else if style == ReadBefore {
      hide Exec, EnvIs, EndsWith, ParamNames, Ints;
      RunPair(body, st, params, l, r, step, 1, false, 0, true);
    } else {
      hide Exec, EnvIs, EndsWith, ParamNames, Ints;
      RunPair(body, st, params, l, r, step, 0, true, 1, style == Independent);
    }
  }

  /** Inner iterations j..inner of outer iteration i. */
  lemma {:induction false} RunInner(style: LoopStyle, x: string, inner: nat, init: seq<int>, step: int,
                                    i: nat, j: nat, st: State, params: map<string, Value>)
    requires |init| >= Arity(style) && j <= inner && (x == "i" || x == "j")
    requires EnvIs(st.vars, params, Ints(After(style, inner, init, step, i, j))) && ParamNames(params)
    requires P(0) in params && params[P(0)] == Int(step)
    ensures EndsWith(ExecLoop(x, RenderLoopBody(style), j, inner, st), st, params,
                     Ints(After(style, inner, init, step, i, inner)))
    decreases inner - j
  {
    var l := After(style, inner, init, step, i, j);
    SetOther(st.vars, params, Ints(l), x, Int(j));
    if j < inner {
      var st1 := st.(vars := st.vars[x := Int(j)]);
      RunBody(style, st1, params, l, step);
      InnerAdvances(style, inner, init, step, i, j);
      RunInner(style, x, inner, init, step, i, j + 1, Exec(RenderLoopBody(style), st1).st, params);
    }
  }

  lemma RunNestedBody(style: LoopStyle, inner: nat, init: seq<int>, step: int,
                      i: nat, st: State, params: map<string, Value>)
    requires |init| >= Arity(style)
    requires EnvIs(st.vars, params, Ints(After(style, inner, init, step, i, 0))) && ParamNames(params)
    requires P(0) in params && params[P(0)] == Int(step)
    ensures EndsWith(Exec(NestedBody(style, inner), st), st, params, Ints(After(style, inner, init, step, i + 1, 0)))
  {
    var loop := For("j", inner, RenderLoopBody(style));
    RunInner(style, "j", inner, init, step, i, 0, st, params);
    OuterAdvances(style, inner, init, step, i);
    CloseNestedBody(style, loop, After(style, inner, init, step, i, inner), st, params);
  }

  lemma CloseNestedBody(style: LoopStyle, loop: Stmt, l: seq<int>, st: State, params: map<string, Value>)
    requires |l| >= Arity(style) && ParamNames(params)
    requires EndsWith(ExecStmt(loop, st), st, params, Ints(l))
    ensures EndsWith(Exec([loop] + if style == NestedOuterRead then [AddTo(L(1), L(0))] else [], st), st, params,
                     Ints(OuterStep(style, l)))
  {
    RunOne(loop, st);
    if style == NestedOuterRead {
      var st1 := ExecStmt(loop, st).st;
      assert st1.vars[L(0)] == Ints(l)[0] == Int(l[0]);
      RunAddTo(st1, params, l, 1, L(0), l[0]);
      RunTwo(loop, AddTo(L(1), L(0)), st);
      assert [loop] + [AddTo(L(1), L(0))] == [loop, AddTo(L(1), L(0))];
    } else {
      assert [loop] + [] == [loop];
    }
  }

  lemma {:induction false} RunOuter(style: LoopStyle, inner: nat, outer: nat, init: seq<int>, step: int,
                                    i: nat, st: State, params: map<string, Value>)
    requires |init| >= Arity(style) && i <= outer
    requires EnvIs(st.vars, params, Ints(After(style, inner, init, step, i, 0))) && ParamNames(params)
    requires P(0) in params && params[P(0)] == Int(step)
    ensures EndsWith(ExecLoop("i", NestedBody(style, inner), i, outer, st), st, params,
                     Ints(After(style, inner, init, step, outer, 0)))
    decreases outer - i
  {
    SetOther(st.vars, params, Ints(After(style, inner, init, step, i, 0)), "i", Int(i));
    if i < outer {
      var st1 := st.(vars := st.vars["i" := Int(i)]);
      RunNestedBody(style, inner, init, step, i, st1, params);
      RunOuter(style, inner, outer, init, step, i + 1, Exec(NestedBody(style, inner), st1).st, params);
    }
  }

  /** Running the rendered loop leaves the locals at the closed form of the rendered style. */
  lemma RunLoop(spec: LoopSpec, init: seq<int>, step: int, st: State, params: map<string, Value>)
    requires |init| >= Arity(spec.style)
    requires EnvIs(st.vars, params, Ints(init)) && ParamNames(params)
    requires P(0) in params && params[P(0)] == Int(step)
    ensures EndsWith(ExecStmt(RenderLoop(spec), st), st, params,
                     Ints(LoopResult(spec.(style := RenderedStyle(spec)), init, step)))
  {
    if spec.inner.Some? {
      AfterStart(spec.style, spec.inner.value, init, step);
      RunOuter(spec.style, spec.inner.value, spec.outer, init, step, 0, st, params);
      assert ExecStmt(RenderLoop(spec), st) == ExecLoop("i", NestedBody(spec.style, spec.inner.value), 0, spec.outer, st);
    } else {
      RunFlat(RenderedStyle(spec), spec.outer, init, step, st, params);
    }
  }

  lemma RunFlat(style: LoopStyle, n: nat, init: seq<int>, step: int, st: State, params: map<string, Value>)
    requires |init| >= Arity(style) && style != NestedOuterRead
    requires EnvIs(st.vars, params, Ints(init)) && ParamNames(params)
    requires P(0) in params && params[P(0)] == Int(step)
    ensures EndsWith(ExecLoop("i", RenderLoopBody(style), 0, n, st), st, params, Ints(After(style, 1, init, step, n, 0)))
  {
    FlatIsInner(style, n, init, step);
    RunInner(style, "i", n, init, step, 0, 0, st, params);
  }

  /** A loop without an inner loop, read as the inner loop of outer iteration 0. */
  lemma FlatIsInner(style: LoopStyle, n: nat, init: seq<int>, step: int)
    requires |init| >= Arity(style) && style != NestedOuterRead
    ensures After(style, n, init, step, 0, 0) == init
    ensures After(style, n, init, step, 0, n) == After(style, 1, init, step, n, 0)
  {
    AfterStart(style, n, init, step);
    assert 0 * n + n == n * 1 + 0;
  }

  /** The results spelled out: with `n` iterations (or `outer * inner`), step `s` and initial locals
      `a` and `b`. */
  lemma ClosedForms(n: nat, outer: nat, inner: nat, a: int, b: int, s: int)
    ensures LoopResult(LoopSpec(Single, n, None), [a], s) == [a + n * s]
    ensures LoopResult(LoopSpec(Independent, n, None), [a, b], s) == [a + n * s, b + n * s]
    ensures LoopResult(LoopSpec(CrossRead, n, None), [a, b], s) == [a + n * s, b + n * a + s * (n * (n + 1) / 2)]
    ensures LoopResult(LoopSpec(ReadBefore, n, None), [a, b], s) == [a + n * s, b + n * a + s * (n * (n - 1) / 2)]
    ensures LoopResult(LoopSpec(NestedCrossRead, outer, Some(inner)), [a, b], s) ==
            (var m := outer * inner; [a + m * s, b + m * a + s * (m * (m + 1) / 2)])
    ensures LoopResult(LoopSpec(NestedOuterRead, outer, Some(inner)), [a, b], s) ==
            [a + outer * inner * s, b + outer * a + s * inner * (outer * (outer + 1) / 2)]
  {
    TriangleClosed(n);
    TriangleClosed(outer);
    TriangleClosed(outer * inner);
    PreviousTriangle(n);
    hide Triangle;
    assert n * 1 + 0 == n;
  }

  lemma PreviousTriangle(n: nat)
    ensures Triangle(n) - n == n * (n - 1) / 2
  {
    if n > 0 {
      TriangleClosed(n - 1);
      assert (n - 1) * (n - 1 + 1) == n * (n - 1);
    }
  }

  /** The model and the rendered loop agree on every input exactly when the outer read is not dropped. */
  lemma ModelMeetsRendering(spec: LoopSpec)
    ensures (forall init, step | |init| >= Arity(spec.style) ::
               LoopResult(spec, init, step) == LoopResult(spec.(style := RenderedStyle(spec)), init, step))
            <==> !(spec.style == NestedOuterRead && spec.inner.None? && spec.outer > 0)
  {
    if spec.style == NestedOuterRead && spec.inner.None? {
      if spec.outer == 0 {
        forall init: seq<int>, step | |init| >= 2
          ensures LoopResult(spec, init, step) == LoopResult(spec.(style := Single), init, step)
        {
          AfterStart(NestedOuterRead, 1, init, step);
          AfterStart(Single, 1, init, step);
        }
      } else {
        var init := [1, 0];
        assert LoopResult(spec, init, 0)[1] == spec.outer;
        assert LoopResult(spec.(style := Single), init, 0)[1] == 0;
      }
    }
  }
}
