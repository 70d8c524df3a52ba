/** The random ANF generator: a mutable context that every emitter appends to. */
module AnfGenerator {
  import opened Collections
  import opened Numbers
  import opened Wrappers
  import opened Text
  import opened Prng
  import opened Anf

  datatype TypedBinding = TypedBinding(b: Binding, ty: ValType)

  function T(n: nat): string { Name('t', n) }

  function Untyped(body: seq<TypedBinding>): (r: seq<Binding>)
    ensures |r| == |body|
  {
    seq(|body|, i requires 0 <= i < |body| => body[i].b)
  }

  /** The bindings that later ones may reference, in order. */
  function Refs(body: seq<TypedBinding>): seq<TypedBinding> {
    if body == [] then []
    else
      var last := body[|body| - 1];
      Refs(body[..|body| - 1]) + if IsStatement(last.b.value) then [] else [last]
  }

  lemma {:induction false} RefsIndex(body: seq<TypedBinding>, x: TypedBinding) returns (i: nat)
    requires x in Refs(body)
    ensures i < |body| && body[i] == x && !IsStatement(x.b.value)
  {
    var last := body[|body| - 1];
    if x in Refs(body[..|body| - 1]) {
      i := RefsIndex(body[..|body| - 1], x);
    } else {
      assert x == last;
      i := |body| - 1;
    }
  }

  /** Every binding is checked against the ones before it and carries its own type. */
  ghost predicate Built(body: seq<TypedBinding>, params: seq<Decl>, props: seq<Decl>) {
    && (forall i :: 0 <= i < |body| ==> body[i].b.name == T(i))
    && BodyOk(Untyped(body), params, props)
    && (forall i :: 0 <= i < |body| && !IsStatement(body[i].b.value) ==>
          FactOf(body[i].b.value, params, props).Some? && FactOf(body[i].b.value, params, props).value.ty == body[i].ty)
  }

  lemma {:induction false} RefFact(body: seq<TypedBinding>, i: nat, params: seq<Decl>, props: seq<Decl>)
    requires Built(body, params, props) && i < |body| && !IsStatement(body[i].b.value)
    ensures T(i) in Facts(Untyped(body), params, props)
    ensures Some(Facts(Untyped(body), params, props)[T(i)]) == FactOf(body[i].b.value, params, props)
  {
    var n := |body| - 1;
    assert Untyped(body)[..n] == Untyped(body[..n]);
    if i < n {
      BuiltPrefix(body, n, params, props);
      RefFact(body[..n], i, params, props);
      NameInjective('t', i, 't', n);
    }
  }

  lemma BuiltPrefix(body: seq<TypedBinding>, n: nat, params: seq<Decl>, props: seq<Decl>)
    requires Built(body, params, props) && n <= |body|
    ensures Built(body[..n], params, props)
  {
    var u, u' := Untyped(body), Untyped(body[..n]);
    assert forall i :: 0 <= i < n ==> u'[i] == u[i] && u'[..i] == u[..i];
    assert forall i :: 0 <= i < n ==> NamesOf(u')[i] == NamesOf(u)[i];
  }

  lemma {:induction false} BodyOkAppend(u: seq<Binding>, b: Binding, params: seq<Decl>, props: seq<Decl>)
    requires BodyOk(u, params, props) && b.name !in NamesOf(u)
    requires ValueOk(b.value, Facts(u, params, props), params, props)
    ensures BodyOk(u + [b], params, props)
  {
    var u' := u + [b];
    forall i | 0 <= i < |u'| ensures ValueOk(u'[i].value, Facts(u'[..i], params, props), params, props) {
      if i == |u| {
        assert u'[..i] == u;
      } else {
        assert u'[..i] == u[..i];
      }
    }
    assert NamesOf(u') == NamesOf(u) + [b.name];
  }

  lemma BuiltAppend(body: seq<TypedBinding>, x: TypedBinding, params: seq<Decl>, props: seq<Decl>)
    requires Built(body, params, props) && x.b.name == T(|body|)
    requires ValueOk(x.b.value, Facts(Untyped(body), params, props), params, props)
    requires !IsStatement(x.b.value) ==>
               FactOf(x.b.value, params, props).Some? && FactOf(x.b.value, params, props).value.ty == x.ty
    ensures Built(body + [x], params, props)
  {
    var u := Untyped(body);
    forall i | 0 <= i < |u| ensures NamesOf(u)[i] != x.b.name {
      assert NamesOf(u)[i] == body[i].b.name == T(i);
      NameInjective('t', i, 't', |body|);
    }
    BodyOkAppend(u, x.b, params, props);
    assert Untyped(body + [x]) == u + [x.b];
  }

  /** The operator lists that take two distinct operands of one type. */
  datatype BinKind = Arithmetic | Comparison | Logical | Bitwise {
    function Ops(): (ops: seq<Operator>)
      ensures |ops| > 0
      ensures forall op :: op in ops ==>
                !IsDivMod(op) && !IsShift(op) && (IsBool(op) <==> Logical?) && (IsCmp(op) <==> Comparison?)
    {
      match this
      case Arithmetic => BIGINT_BIN_OPS
      case Comparison => CMP_BIN_OPS
      case Logical => BOOL_BIN_OPS
      case Bitwise => BITWISE_BIN_OPS
    }

    function OperandTy(): ValType { if Logical? then Boolean else Bigint }

    function ResultTy(): ValType { if Logical? || Comparison? then Boolean else Bigint }
  }

  /** What the last binding of a step is, for each of the fifteen choices. */
  predicate Dispatched(choice: int, v: AnfValue, hasParams: bool, hasProps: bool) {
    if choice == 1 then v.LoadConst? && v.c.BoolConst?
    else if choice == 2 then v.BinOp? && v.op in Arithmetic.Ops()
    else if choice == 3 then v.BinOp? && v.op in Comparison.Ops()
    else if choice == 4 then v.BinOp? && v.op in Logical.Ops()
    else if choice == 5 then v.UnaryOp? && v.uop != LogNot
    else if choice == 6 then v.UnaryOp? && v.uop == LogNot
    else if choice == 7 && hasParams then v.LoadParam?
    else if choice == 8 && hasProps then v.LoadProp?
    else if choice == 9 then v.Call? && v.func == "abs"
    else if choice == 10 then v.ArrayLiteral?
    else if choice == 11 && hasProps then v.UpdateProp?
    else if choice == 12 then v.BinOp? && IsDivMod(v.op)
    else if choice == 13 then v.BinOp? && IsShift(v.op)
    else if choice == 14 then v.BinOp? && v.op in Bitwise.Ops()
    else v.LoadConst? && v.c.IntConst?
  }

  class GenContext {
    var body: seq<TypedBinding>
    var bindings: seq<TypedBinding>
    const properties: seq<Property>
    const params: seq<Decl>
    var nextId: nat

    constructor (properties: seq<Property>, params: seq<Decl>)
      ensures Valid() && body == [] && this.properties == properties && this.params == params
    {
      body, bindings, nextId := [], [], 0;
      this.properties, this.params := properties, params;
    }

    ghost predicate Consistent()
      reads this
    {
      Built(body, params, Decls(properties)) && bindings == Refs(body)
    }

    ghost predicate Valid()
      reads this
    {
      Consistent() && nextId == |body|
    }

    ghost function Known(): map<string, Fact>
      reads this
    {
      Facts(Untyped(body), params, Decls(properties))
    }

    /** A reference that may be used as an operand of type `t`. */
    ghost predicate Available(x: TypedBinding, t: ValType)
      reads this
    {
      x in bindings && x.ty == t
    }

    lemma AvailableIs(x: TypedBinding, t: ValType)
      requires Consistent() && Available(x, t)
      ensures Is(Known(), x.b.name, t)
      ensures Some(Known()[x.b.name]) == FactOf(x.b.value, params, Decls(properties))
      ensures x.b.name != T(|body|)
    {
      var i := RefsIndex(body, x);
      RefFact(body, i, params, Decls(properties));
      NameInjective('t', i, 't', |body|);
    }

    method FreshName() returns (name: string)
      modifies `nextId
      ensures name == T(old(nextId)) && nextId == old(nextId) + 1
    {
      name := T(nextId);
      nextId := nextId + 1;
    }

    /** Append a scalar that later bindings may reference. */
    method PushRef(x: TypedBinding)
      requires Consistent() && nextId == |body| + 1 && x.b.name == T(|body|)
      requires !IsStatement(x.b.value) && ValueOk(x.b.value, Known(), params, Decls(properties))
      requires FactOf(x.b.value, params, Decls(properties)).Some?
      requires FactOf(x.b.value, params, Decls(properties)).value.ty == x.ty
      modifies `body, `bindings
      ensures Valid() && body == old(body) + [x] && bindings == old(bindings) + [x]
    {
      BuiltAppend(body, x, params, Decls(properties));
      assert (body + [x])[..|body|] == body;
      body := body + [x];
      bindings := bindings + [x];
    }

    /** Append a statement, which nothing may reference. */
    method PushStmt(x: TypedBinding)
      requires Consistent() && nextId == |body| + 1 && x.b.name == T(|body|)
      requires IsStatement(x.b.value) && ValueOk(x.b.value, Known(), params, Decls(properties))
      modifies `body
      ensures Valid() && body == old(body) + [x]
    {
      BuiltAppend(body, x, params, Decls(properties));
      assert (body + [x])[..|body|] == body;
      body := body + [x];
    }

    /** An earlier scalar of type `t`, if there is one. */
    method PriorOf(t: ValType, rng: Rng) returns (r: Option<TypedBinding>)
      requires Valid()
      modifies rng
      ensures r.Some? ==> Available(r.value, t)
      ensures r.None? ==> forall x :: x in bindings ==> x.ty != t
    {
      var candidates: seq<TypedBinding> := [];
      for i := 0 to |bindings|
        invariant forall x :: x in candidates <==> x in bindings[..i] && x.ty == t
      {
        assert bindings[..i + 1] == bindings[..i] + [bindings[i]];
        if bindings[i].ty == t {
          candidates := candidates + [bindings[i]];
        }
      }
      assert bindings[..|bindings|] == bindings;
      if candidates == [] {
        assert forall x :: x in bindings && x.ty == t ==> x in candidates;
        return None;
      }
      var x := rng.Pick(candidates);
      r := Some(x);
    }

    method EmitConst(t: ValType, rng: Rng) returns (x: TypedBinding)
      requires Valid()
      modifies this, rng
      ensures Valid() && body == old(body) + [x] && bindings == old(bindings) + [x]
      ensures x.ty == t && x.b.value.LoadConst? && x.b.name == T(|old(body)|)
      ensures t == Bigint ==> x.b.value.c.IntConst? && -1024 <= x.b.value.c.n <= 1024
      ensures t == Boolean ==> x.b.value.c.BoolConst?
    {
      var name := FreshName();
      var c;
      if t == Bigint {
        var n := rng.NextInt(-1024, 1024);
        c := IntConst(n);
      } else {
        var b := rng.NextBool();
        c := BoolConst(b);
      }
      x := TypedBinding(Binding(name, LoadConst(c)), t);
      PushRef(x);
    }

    /** A prior scalar of the type, or a fresh constant when there is none. */
    method Ensure(t: ValType, rng: Rng) returns (x: TypedBinding)
      requires Valid()
      modifies this, rng
      ensures Valid() && Available(x, t)
      ensures old(body) <= body && old(bindings) <= bindings && |body| <= |old(body)| + 1
      ensures (exists y :: y in old(bindings) && y.ty == t) ==> body == old(body)
    {
      var p := PriorOf(t, rng);
      if p.Some? {
        x := p.value;
      } else {
        x := EmitConst(t, rng);
      }
    }

    method TwoDistinct(t: ValType, rng: Rng) returns (left: TypedBinding, right: TypedBinding)
      requires Valid()
      modifies this, rng
      ensures Valid() && Available(left, t) && Available(right, t) && left.b.name != right.b.name
      ensures old(body) <= body && old(bindings) <= bindings && |body| <= |old(body)| + 2
    {
      left := Ensure(t, rng);
      ghost var body1 := body;
      for i := 0 to 4
        invariant Valid() && Available(left, t)
        invariant body == body1 && old(bindings) <= bindings
      {
        right := Ensure(t, rng);
        if right.b.name != left.b.name {
          return;
        }
      }
      AvailableIs(left, t);
      right := EmitConst(t, rng);
    }

    method PushBinOp(op: Operator, left: TypedBinding, right: TypedBinding, t: ValType) returns (x: TypedBinding)
      requires Valid() && Available(left, OperandType(op)) && Available(right, OperandType(op))
      requires left.b.name != right.b.name
      requires t == if IsCmp(op) || IsBool(op) then Boolean else Bigint
      requires IsDivMod(op) ==> right.b.value.LoadConst? && right.b.value.c.IntConst? && right.b.value.c.n != 0
      requires IsShift(op) ==> right.b.value.LoadConst? && right.b.value.c.IntConst? && right.b.value.c.n >= 0
      modifies this
      ensures Valid() && body == old(body) + [x] && bindings == old(bindings) + [x]
      ensures x == TypedBinding(Binding(T(|old(body)|), BinOp(op, left.b.name, right.b.name)), t)
    {
      AvailableIs(left, OperandType(op));
      AvailableIs(right, OperandType(op));
      var name := FreshName();
      x := TypedBinding(Binding(name, BinOp(op, left.b.name, right.b.name)), t);
      PushRef(x);
    }

    method EmitBinOp(kind: BinKind, rng: Rng) returns (x: TypedBinding)
      requires Valid()
      modifies this, rng
      ensures Valid() && old(body) < body && old(bindings) <= bindings
      ensures Available(x, kind.ResultTy()) && x == body[|body| - 1] && x.b.value.BinOp? && x.b.value.op in kind.Ops()
      ensures |body| <= |old(body)| + 3
    {
      var left, right := TwoDistinct(kind.OperandTy(), rng);
      var op := rng.Pick(kind.Ops());
      x := PushBinOp(op, left, right, kind.ResultTy());
    }

    method EmitNonZeroConst(rng: Rng) returns (x: TypedBinding)
      requires Valid()
      modifies this, rng
      ensures Valid() && body == old(body) + [x] && bindings == old(bindings) + [x]
      ensures x.ty == Bigint && x.b.name == T(|old(body)|)
      ensures x.b.value.LoadConst? && x.b.value.c.IntConst? && 1 <= Abs(x.b.value.c.n) <= 20
    {
      var name := FreshName();
      var mag := rng.NextInt(1, 20);
      var positive := rng.NextBool();
      x := TypedBinding(Binding(name, LoadConst(IntConst(if positive then mag else -mag))), Bigint);
      PushRef(x);
    }

    method EmitDivModOp(rng: Rng) returns (x: TypedBinding)
      requires Valid()
      modifies this, rng
      ensures Valid() && old(body) < body && old(bindings) <= bindings
      ensures Available(x, Bigint) && x == body[|body| - 1] && x.b.value.BinOp? && IsDivMod(x.b.value.op)
      ensures |body| <= |old(body)| + 3
    {
      hide Built, Refs;
      var left := Ensure(Bigint, rng);
      AvailableIs(left, Bigint);
      var right := EmitNonZeroConst(rng);
      var op := rng.Pick(DIV_MOD_OPS);
      assert Available(left, Bigint) && Available(right, Bigint) && left.b.name != right.b.name;
      x := PushBinOp(op, left, right, Bigint);
    }

    method EmitShiftAmount(rng: Rng) returns (x: TypedBinding)
      requires Valid()
      modifies this, rng
      ensures Valid() && body == old(body) + [x] && bindings == old(bindings) + [x]
      ensures x.ty == Bigint && x.b.name == T(|old(body)|)
      ensures x.b.value.LoadConst? && x.b.value.c.IntConst? && 0 <= x.b.value.c.n <= 7
    {
      var name := FreshName();
      var n := rng.NextInt(0, 7);
      x := TypedBinding(Binding(name, LoadConst(IntConst(n))), Bigint);
      PushRef(x);
    }

    method EmitShiftOp(rng: Rng) returns (x: TypedBinding)
      requires Valid()
      modifies this, rng
      ensures Valid() && old(body) < body && old(bindings) <= bindings
      ensures Available(x, Bigint) && x == body[|body| - 1] && x.b.value.BinOp? && IsShift(x.b.value.op)
      ensures |body| <= |old(body)| + 3
    {
      hide Built, Refs;
      var left := Ensure(Bigint, rng);
      AvailableIs(left, Bigint);
      var amt := EmitShiftAmount(rng);
      var op := rng.Pick(SHIFT_OPS);
      assert Available(left, Bigint) && Available(amt, Bigint) && left.b.name != amt.b.name;
      x := PushBinOp(op, left, amt, Bigint);
    }

    method EmitUnaryOp(t: ValType, rng: Rng) returns (x: TypedBinding)
      requires Valid()
      modifies this, rng
      ensures Valid() && old(body) < body && old(bindings) <= bindings
      ensures Available(x, t) && x == body[|body| - 1] && x.b.value.UnaryOp? && (x.b.value.uop == LogNot <==> t == Boolean)
      ensures |body| <= |old(body)| + 2
    {
      var operand := Ensure(t, rng);
      AvailableIs(operand, t);
      var name := FreshName();
      var op := LogNot;
      if t == Bigint {
        var negate := rng.NextBool();
        op := if negate then Neg else BitNot;
      }
      x := TypedBinding(Binding(name, UnaryOp(op, operand.b.name)), t);
      PushRef(x);
    }

    method EmitLoadParam(param: Decl) returns (x: TypedBinding)
      requires Valid() && param in params && NoRepeats(DeclNames(params))
      modifies this
      ensures Valid() && body == old(body) + [x] && bindings == old(bindings) + [x]
      ensures x.b.value == LoadParam(param.name) && x.ty == TypeNamed(param.ty)
    {
      DeclaredType(params, param);
      var name := FreshName();
      x := TypedBinding(Binding(name, LoadParam(param.name)), TypeNamed(param.ty));
      PushRef(x);
    }

    method EmitLoadProp(prop: Property) returns (x: TypedBinding)
      requires Valid() && prop in properties && NoRepeats(DeclNames(Decls(properties)))
      modifies this
      ensures Valid() && body == old(body) + [x] && bindings == old(bindings) + [x]
      ensures x.b.value == LoadProp(prop.decl.name) && x.ty == TypeNamed(prop.decl.ty)
    {
      DeclaredProp(properties, prop);
      var name := FreshName();
      x := TypedBinding(Binding(name, LoadProp(prop.decl.name)), TypeNamed(prop.decl.ty));
      PushRef(x);
    }

    method EmitCallAbs(rng: Rng) returns (x: TypedBinding)
      requires Valid()
      modifies this, rng
      ensures Valid() && old(body) < body && old(bindings) <= bindings
      ensures Available(x, Bigint) && x == body[|body| - 1] && x.b.value.Call? && x.b.value.func == "abs"
      ensures |body| <= |old(body)| + 2
    {
      var arg := Ensure(Bigint, rng);
      AvailableIs(arg, Bigint);
      var name := FreshName();
      x := TypedBinding(Binding(name, Call("abs", [arg.b.name])), Bigint);
      PushRef(x);
    }

    method EmitElements(len: nat, rng: Rng) returns (elements: seq<string>)
      requires Valid()
      modifies this, rng
      ensures Valid() && old(body) <= body && old(bindings) <= bindings
      ensures |elements| == len && |body| == |old(body)| + len
      ensures forall j :: 0 <= j < len ==> elements[j] == T(|old(body)| + j)
      ensures forall k :: |old(body)| <= k < |body| ==> body[k].ty == Bigint && !IsStatement(body[k].b.value)
    {
      elements := [];
      for i := 0 to len
        invariant Valid() && old(body) <= body && old(bindings) <= bindings
        invariant |body| == |old(body)| + i && |elements| == i
        invariant forall j :: 0 <= j < i ==> elements[j] == T(|old(body)| + j)
        invariant forall k :: |old(body)| <= k < |body| ==> body[k].ty == Bigint && !IsStatement(body[k].b.value)
      {
        var elem := EmitConst(Bigint, rng);
        elements := elements + [elem.b.name];
      }
    }

    /** One to three fresh constants, then an array literal of exactly them. */
    method EmitArrayLiteral(rng: Rng) returns (x: TypedBinding)
      requires Valid()
      modifies this, rng
      ensures Valid() && old(body) < body && old(bindings) <= bindings
      ensures x == body[|body| - 1] && x.b.value.ArrayLiteral?
      ensures 1 <= |x.b.value.elements| <= 3 && |body| == |old(body)| + |x.b.value.elements| + 1
      ensures forall i :: 0 <= i < |x.b.value.elements| ==> x.b.value.elements[i] == T(|old(body)| + i)
    {
      hide Built, Refs;
      var len := rng.NextInt(1, 3);
      var elements := EmitElements(len, rng);
      FreshElementsOk(|old(body)|, elements);
      var name := FreshName();
      x := TypedBinding(Binding(name, ArrayLiteral(elements)), Bigint);
      PushStmt(x);
    }

    lemma FreshElementsOk(start: nat, elements: seq<string>)
      requires Consistent() && |body| == start + |elements|
      requires forall j :: 0 <= j < |elements| ==> elements[j] == T(start + j)
      requires forall k :: start <= k < |body| ==> body[k].ty == Bigint && !IsStatement(body[k].b.value)
      ensures ValueOk(ArrayLiteral(elements), Known(), params, Decls(properties))
    {
      forall j | 0 <= j < |elements| ensures Is(Known(), elements[j], Bigint) {
        RefFact(body, start + j, params, Decls(properties));
      }
      forall i, j | 0 <= i < j < |elements| ensures elements[i] != elements[j] {
        NameInjective('t', start + i, 't', start + j);
      }
    }

    method EmitUpdateProp(prop: Property, rng: Rng) returns (x: TypedBinding)
      requires Valid() && prop in properties && NoRepeats(DeclNames(Decls(properties)))
      modifies this, rng
      ensures Valid() && old(body) < body && old(bindings) <= bindings
      ensures x == body[|body| - 1] && x.b.value.UpdateProp? && x.b.value.name == prop.decl.name
      ensures |body| <= |old(body)| + 2
    {
      DeclaredProp(properties, prop);
      var ty := TypeNamed(prop.decl.ty);
      var value := Ensure(ty, rng);
      AvailableIs(value, ty);
      var name := FreshName();
      x := TypedBinding(Binding(name, UpdateProp(prop.decl.name, value.b.name)), ty);
      PushStmt(x);
    }

    method EmitAssert(rng: Rng) returns (x: TypedBinding)
      requires Valid()
      modifies this, rng
      ensures Valid() && old(body) < body && old(bindings) <= bindings
      ensures x == body[|body| - 1] && x.b.value.Assert?
      ensures |body| <= |old(body)| + 4
    {
      var prior := PriorOf(Boolean, rng);
      var cond;
      if prior.Some? {
        cond := prior.value;
      } else {
        cond := EmitBinOp(Comparison, rng);
      }
      AvailableIs(cond, Boolean);
      var name := FreshName();
      x := TypedBinding(Binding(name, Assert(cond.b.name)), Boolean);
      PushStmt(x);
    }

    /** A constant, the drawn bindings, and the closing assert. */
    method EmitBody(maxBindings: nat, rng: Rng)
      requires Valid() && body == [] && maxBindings >= 1
      requires NoRepeats(DeclNames(params)) && NoRepeats(DeclNames(Decls(properties)))
      modifies this, rng
      ensures Valid() && 3 <= |body| <= 1 + 4 * maxBindings + 4
      ensures body[|body| - 1].b.value.Assert?
    {
      hide Built, Refs;
      var _ := EmitConst(Bigint, rng);
      var numBindings := rng.NextInt(1, maxBindings);
      for b := 0 to numBindings
        invariant Valid() && 1 + b <= |body| <= 1 + 4 * b
      {
        EmitOne(rng);
      }
      var _ := EmitAssert(rng);
    }

    /** The choices that load or assign no declaration; the others fall back to a constant. */
    method EmitPlain(choice: int, rng: Rng)
      requires Valid()
      modifies this, rng
      ensures Valid() && old(body) < body && |body| <= |old(body)| + 4
      ensures Dispatched(choice, body[|body| - 1].b.value, false, false)
    {
      hide Built, Refs, Valid, Consistent;
      if choice == 1 { var _ := EmitConst(Boolean, rng); }
      else if choice == 2 { var _ := EmitBinOp(Arithmetic, rng); }
      else if choice == 3 { var _ := EmitBinOp(Comparison, rng); }
      else if choice == 4 { var _ := EmitBinOp(Logical, rng); }
      else if choice == 5 { var _ := EmitUnaryOp(Bigint, rng); }
      else if choice == 6 { var _ := EmitUnaryOp(Boolean, rng); }
      else if choice == 9 { var _ := EmitCallAbs(rng); }
      else if choice == 10 { var _ := EmitArrayLiteral(rng); }
      else if choice == 12 { var _ := EmitDivModOp(rng); }
      else if choice == 13 { var _ := EmitShiftOp(rng); }
      else if choice == 14 { var _ := EmitBinOp(Bitwise, rng); }
      else { var _ := EmitConst(Bigint, rng); }
    }

    /** One draw of the dispatch table; a choice without its declaration falls back to a constant. */
    method EmitOne(rng: Rng)
      requires Valid() && NoRepeats(DeclNames(params)) && NoRepeats(DeclNames(Decls(properties)))
      modifies this, rng
      ensures Valid() && old(body) < body && |body| <= |old(body)| + 4
      ensures Dispatched(rng.stream(old(rng.pos)) % 15, body[|body| - 1].b.value, |params| > 0, |properties| > 0)
    {
      hide Built, Refs, DeclNames, Decls, NoRepeats, Valid, Consistent;
      var choice := rng.NextInt(0, 14);
      if choice == 7 && |params| > 0 { var p := rng.Pick(params); var _ := EmitLoadParam(p); }
      else if choice == 8 && |properties| > 0 { var p := rng.Pick(properties); var _ := EmitLoadProp(p); }
      else if choice == 11 && |properties| > 0 { var p := rng.Pick(properties); var _ := EmitUpdateProp(p, rng); }
      else { EmitPlain(choice, rng); }
    }
  }

  lemma {:induction false} DeclaredType(ds: seq<Decl>, d: Decl)
    requires d in ds && NoRepeats(DeclNames(ds))
    ensures DeclType(ds, d.name) == Some(TypeNamed(d.ty))
  {
    var i :| 0 <= i < |ds| && ds[i] == d;
    if i > 0 {
      assert DeclNames(ds)[0] != DeclNames(ds)[i];
      assert forall k :: 0 <= k < |ds| - 1 ==> DeclNames(ds[1..])[k] == DeclNames(ds)[k + 1];
      assert d == ds[1..][i - 1];
      DeclaredType(ds[1..], d);
    }
  }

  lemma DeclaredProp(ps: seq<Property>, p: Property)
    requires p in ps && NoRepeats(DeclNames(Decls(ps)))
    ensures DeclType(Decls(ps), p.decl.name) == Some(TypeNamed(p.decl.ty))
  {
    var i :| 0 <= i < |ps| && ps[i] == p;
    assert Decls(ps)[i] == p.decl;
    DeclaredType(Decls(ps), p.decl);
  }

  // ----- programs -----

  datatype GenOpts = GenOpts(maxMethods: nat, maxBindingsPerMethod: nat, maxProperties: nat, maxParamsPerMethod: nat)

  /** What the generator promises about every method it emits. */
  ghost predicate GeneratedMethod(m: Method, props: seq<Decl>, opts: GenOpts) {
    && NoRepeats(DeclNames(m.params)) && BodyOk(m.body, m.params, props)
    && (forall i :: 0 <= i < |m.params| ==> m.params[i] == Decl("p" + Decimal(i), "bigint"))
    && (forall i :: 0 <= i < |m.body| ==> m.body[i].name == T(i))
    && |m.body| >= 3 && m.body[|m.body| - 1].value.Assert?
    && |m.body| <= 1 + 4 * opts.maxBindingsPerMethod + 4
    && |m.params| <= opts.maxParamsPerMethod && m.isPublic
  }

  ghost predicate GeneratedProgram(p: Program, opts: GenOpts) {
    && |p.properties| <= opts.maxProperties && 1 <= |p.methods| <= opts.maxMethods
    && NoRepeats(DeclNames(Decls(p.properties)))
    && (forall i :: 0 <= i < |p.properties| ==> p.properties[i] == Property(Decl("prop" + Decimal(i), "bigint"), false, None))
    && (forall i :: 0 <= i < |p.methods| ==> p.methods[i].name == if i == 0 then "verify" else "m" + Decimal(i))
    && (forall i :: 0 <= i < |p.methods| ==> GeneratedMethod(p.methods[i], Decls(p.properties), opts))
    && (forall i, j :: 0 <= i < j < |p.methods| ==> p.methods[i].name != p.methods[j].name)
  }

  function MethodName(m: nat): string {
    if m == 0 then "verify" else Name('m', m)
  }

  lemma MethodNamesDiffer(i: nat, j: nat)
    requires i < j
    ensures MethodName(i) != MethodName(j)
  {
    NameInjective('m', i, 'm', j);
    assert "verify"[0] == 'v';
  }

  method DeclareBigints(prefix: string, count: nat) returns (ds: seq<Decl>)
    requires |prefix| > 0
    ensures |ds| == count && forall i :: 0 <= i < count ==> ds[i] == Decl(prefix + Decimal(i), "bigint")
  {
    ds := [];
    for i := 0 to count
      invariant |ds| == i && forall j :: 0 <= j < i ==> ds[j] == Decl(prefix + Decimal(j), "bigint")
    {
      ds := ds + [Decl(prefix + Decimal(i), "bigint")];
    }
  }

  lemma PrefixedNames(prefix: string, ds: seq<Decl>)
    requires forall i :: 0 <= i < |ds| ==> ds[i].name == prefix + Decimal(i)
    ensures NoRepeats(DeclNames(ds))
  {
    forall i, j | 0 <= i < j < |ds| ensures DeclNames(ds)[i] != DeclNames(ds)[j] {
      assert ds[i].name[|prefix|..] == Decimal(i) && ds[j].name[|prefix|..] == Decimal(j);
      if Decimal(i) == Decimal(j) { DecimalInjective(i, j); }
    }
  }

  method GenerateMethod(m: nat, properties: seq<Property>, opts: GenOpts, rng: Rng) returns (r: Method)
    requires opts.maxBindingsPerMethod >= 1 && NoRepeats(DeclNames(Decls(properties)))
    modifies rng
    ensures GeneratedMethod(r, Decls(properties), opts) && r.name == MethodName(m)
  {
    var numParams := rng.NextInt(0, opts.maxParamsPerMethod);
    var params := DeclareBigints("p", numParams);
    PrefixedNames("p", params);
    var ctx := new GenContext(properties, params);
    ctx.EmitBody(opts.maxBindingsPerMethod, rng);
    r := Method(MethodName(m), params, Untyped(ctx.body), true);
  }

  /** For every stream of draws: unique names t0, t1, ... in every body, every operand an earlier scalar
      of the right type, distinct operands, nonzero literal divisors, non-negative literal shifts, and an
      assert at the end. Drawing from an empty range is the one error, so the limits must allow it. */
  method GenerateProgram(opts: GenOpts, rng: Rng) returns (p: Program)
    requires opts.maxMethods >= 1 && opts.maxBindingsPerMethod >= 1
    modifies rng
    ensures GeneratedProgram(p, opts) && p.contractName == "FuzzAnf"
  {
    var numProps := rng.NextInt(0, opts.maxProperties);
    var decls := DeclareBigints("prop", numProps);
    hide *;
    var properties := seq(|decls|, i requires 0 <= i < |decls| => Property(decls[i], false, None));
    PropertiesNamed(decls, properties);
    var numMethods := rng.NextInt(1, opts.maxMethods);
    var methods: seq<Method> := [];
    for m := 0 to numMethods
      invariant |methods| == m
      invariant forall i :: 0 <= i < m ==> GeneratedMethod(methods[i], Decls(properties), opts) && methods[i].name == MethodName(i)
    {
      var r := GenerateMethod(m, properties, opts, rng);
      methods := methods + [r];
    }
    p := Program("FuzzAnf", properties, methods);
    Assembled(p, opts);
  }

  lemma PropertiesNamed(decls: seq<Decl>, properties: seq<Property>)
    requires |properties| == |decls| && forall i :: 0 <= i < |decls| ==> properties[i] == Property(decls[i], false, None)
    requires forall i :: 0 <= i < |decls| ==> decls[i].name == "prop" + Decimal(i)
    ensures NoRepeats(DeclNames(Decls(properties)))
  {
    hide Decimal;
    assert Decls(properties) == decls;
    PrefixedNames("prop", decls);
  }

  lemma Assembled(p: Program, opts: GenOpts)
    requires |p.properties| <= opts.maxProperties && 1 <= |p.methods| <= opts.maxMethods
    requires NoRepeats(DeclNames(Decls(p.properties)))
    requires forall i :: 0 <= i < |p.properties| ==> p.properties[i] == Property(Decl("prop" + Decimal(i), "bigint"), false, None)
    requires forall i :: 0 <= i < |p.methods| ==>
               GeneratedMethod(p.methods[i], Decls(p.properties), opts) && p.methods[i].name == MethodName(i)
    ensures GeneratedProgram(p, opts)
  {
    hide GeneratedMethod, Decimal, NoRepeats, Decls, DeclNames;
    forall i, j | 0 <= i < j < |p.methods| ensures p.methods[i].name != p.methods[j].name {
      MethodNamesDiffer(i, j);
    }
  }

  lemma GeneratedIsOk(p: Program, opts: GenOpts)
    requires GeneratedProgram(p, opts)
    ensures ProgramOk(p)
  {
    forall m | m in p.methods
      ensures NoRepeats(DeclNames(m.params)) && BodyOk(m.body, m.params, Decls(p.properties))
    {
      var i :| 0 <= i < |p.methods| && p.methods[i] == m;
    }
  }

  /** No generated method ever gets stuck: no type confusion, no zero divisor, no negative shift. */
  lemma GeneratedNeverStuck(p: Program, opts: GenOpts, m: Method, props: map<string, Val>, params: map<string, Val>,
                            bits: (Operator, int, int) -> int)
    requires GeneratedProgram(p, opts) && m in p.methods
    requires Fits(params, m.params) && Fits(props, Decls(p.properties))
    ensures !Run(m.body, props, params, bits).Stuck?
  {
    GeneratedIsOk(p, opts);
    ProgramSound(p, m, props, params, bits);
  }
}
