/** The spend-shape generator: it picks values, predicts the post-state and renders the contract. */
module SpendShapes {
  import opened Wrappers
  import opened Text
  import opened Prng
  import opened ShapeLang
  import opened ShapeLoops
  import opened ShapeRename
  import opened ShapeRender

  // ----- value classes -----

  function Repeat(s: string, n: nat): string {
    if n == 0 then "" else s + Repeat(s, n - 1)
  }

  const PUBKEY_A: Value := Hex("02" + Repeat("a1", 32))
  const PUBKEY_B: Value := Hex("03" + Repeat("b2", 32))

  const BYTESTRING_CLASSES: seq<Value> := [
    Hex(""), Hex("00"), Hex("01"), Hex("05"), Hex("0a"), Hex("10"), Hex("81"),
    Hex("11"), Hex("ff"), Hex("0011"), Hex("deadbeef"), Hex(Repeat("c0", 20))]

  const BIGINT_CLASSES: seq<Value> := [
    Int(0), Int(1), Int(7), Int(16), Int(-1), Int(-2), Int(-128), Int(-70000),
    Int(17), Int(127), Int(128), Int(70000), Int(2147483647)]

  const LOOP_SEED_VALUES: seq<Value> := [Int(0), Int(1), Int(7), Int(-1), Int(-2)]

  const FIELD_TYPES: seq<ShapeType> := [BigintT, ByteStringT, BooleanT, PubKeyT]

  function ClassesFor(t: ShapeType): (vs: seq<Value>)
    ensures |vs| > 0 && forall v :: v in vs ==> HasType(v, t)
  {
    match t
    case BigintT => BIGINT_CLASSES
    case BooleanT => [Bool(true), Bool(false)]
    case ByteStringT => BYTESTRING_CLASSES
    case PubKeyT => [PUBKEY_A, PUBKEY_B]
  }

  // ----- families -----

  datatype Family = Family(
    name: string,
    k: Option<nat> := None, arms: Option<ArmStyle> := None,
    pinnedValue: Option<Value> := None, pinnedType: Option<ShapeType> := None,
    slotCount: Option<nat> := None, slotTypes: Option<seq<ShapeType>> := None, slotValues: Option<seq<Value>> := None,
    rejects: bool := false, loop: Option<LoopSpec> := None)

  /** What the family table keeps: some local to merge, pins of the pinned type, enough locals for
      the loop, and an inner loop wherever the outer body reads what the inner one wrote. */
  predicate FamilyOk(fam: Family) {
    && (fam.k.Some? ==> fam.k.value >= 1)
    && (fam.pinnedType.Some? && fam.pinnedValue.Some? ==> HasType(fam.pinnedValue.value, fam.pinnedType.value))
    && (fam.slotValues.Some? ==> fam.slotTypes.Some?)
    && (fam.slotValues.Some? ==>
        forall i :: 0 <= i < |fam.slotValues.value| && i < |fam.slotTypes.value| ==>
          HasType(fam.slotValues.value[i], fam.slotTypes.value[i]))
    && (fam.loop.Some? ==>
        && (fam.loop.value.style != Single ==> fam.k.Some? && fam.k.value >= 2)
        && (fam.loop.value.style == NestedOuterRead ==> fam.loop.value.inner.Some?))
  }

  const MERGE_FAMILIES: seq<Family> := [
    Family("merge-k1-both", k := Some(1), arms := Some(Both)),
    Family("merge-k2-both", k := Some(2), arms := Some(Both)),
    Family("merge-k2-asymmetric", k := Some(2), arms := Some(Asymmetric)),
    Family("merge-k2-no-else", k := Some(2), arms := Some(NoElse)),
    Family("merge-k3-both", k := Some(3), arms := Some(Both)),
    Family("merge-k3-asymmetric", k := Some(3), arms := Some(Asymmetric)),
    Family("merge-k4-asymmetric", k := Some(4), arms := Some(Asymmetric)),
    Family("merge-nested-if", k := Some(2), arms := Some(Nested)),
    Family("merge-k3-nested-if", k := Some(3), arms := Some(Nested)),
    Family("merge-k2-nested-sibling", k := Some(2), arms := Some(NestedSibling)),
    Family("merge-k3-nested-sibling", k := Some(3), arms := Some(NestedSibling)),
    Family("merge-k4-nested-sibling", k := Some(4), arms := Some(NestedSibling))]

  const STATE_FAMILIES: seq<Family> := [
    Family("state-bytestring-op-n", k := Some(2), pinnedType := Some(ByteStringT), pinnedValue := Some(Hex("05"))),
    Family("state-bytestring-op-n-high", k := Some(2), pinnedType := Some(ByteStringT), pinnedValue := Some(Hex("10"))),
    Family("state-bytestring-op-1negate", k := Some(2), pinnedType := Some(ByteStringT), pinnedValue := Some(Hex("81"))),
    Family("state-bytestring-0x00", k := Some(2), pinnedType := Some(ByteStringT), pinnedValue := Some(Hex("00"))),
    Family("state-bytestring-empty", k := Some(2), pinnedType := Some(ByteStringT), pinnedValue := Some(Hex(""))),
    Family("state-bytestring-outside", k := Some(2), pinnedType := Some(ByteStringT), pinnedValue := Some(Hex("ff"))),
    Family("state-bytestring-multibyte", k := Some(2), pinnedType := Some(ByteStringT), pinnedValue := Some(Hex("deadbeef"))),
    Family("state-bigint-negative-one", k := Some(2), pinnedType := Some(BigintT), pinnedValue := Some(Int(-1))),
    Family("state-bigint-negative-large", k := Some(2), pinnedType := Some(BigintT), pinnedValue := Some(Int(-70000))),
    Family("state-bigint-zero", k := Some(2), pinnedType := Some(BigintT), pinnedValue := Some(Int(0))),
    Family("state-bigint-large", k := Some(2), pinnedType := Some(BigintT), pinnedValue := Some(Int(2147483647))),
    Family("state-boolean", k := Some(2), pinnedType := Some(BooleanT), pinnedValue := Some(Bool(true))),
    Family("state-pubkey", k := Some(2), pinnedType := Some(PubKeyT), pinnedValue := Some(PUBKEY_A))]

  const SLOT_FAMILIES: seq<Family> := [
    Family("ctor-slots-shifting", k := Some(2), slotTypes := Some([PubKeyT, BigintT, ByteStringT]),
           slotValues := Some([PUBKEY_B, Int(70000), Hex("deadbeef")])),
    Family("ctor-slots-mixed", k := Some(2), slotTypes := Some([ByteStringT, BigintT, BooleanT, PubKeyT]),
           slotValues := Some([Hex("05"), Int(5), Bool(true), PUBKEY_A])),
    Family("reject-guard", k := Some(2), rejects := true)]

  const LOOP_FAMILIES: seq<Family> := [
    Family("loop-k1-single", k := Some(1), loop := Some(LoopSpec(Single, 3, None))),
    Family("loop-k2-cross-read", k := Some(2), loop := Some(LoopSpec(CrossRead, 3, None))),
    Family("loop-k2-cross-read-1iter", k := Some(2), loop := Some(LoopSpec(CrossRead, 1, None))),
    Family("loop-k2-read-before", k := Some(2), loop := Some(LoopSpec(ReadBefore, 3, None))),
    Family("loop-k2-independent", k := Some(2), loop := Some(LoopSpec(Independent, 3, None))),
    Family("loop-k2-nested-cross-read", k := Some(2), loop := Some(LoopSpec(NestedCrossRead, 2, Some(2)))),
    Family("loop-k2-nested-outer-read", k := Some(2), loop := Some(LoopSpec(NestedOuterRead, 2, Some(2))))]

  /** The round-robin table. */
  const FAMILIES: seq<Family> := MERGE_FAMILIES + STATE_FAMILIES + SLOT_FAMILIES + LOOP_FAMILIES

  /** The shipped families meet the demands of the generator. */
  lemma {:induction false} ShippedFamiliesOk()
    ensures |FAMILIES| > 0
    ensures forall fam :: fam in FAMILIES ==> FamilyOk(fam)
  {
    MergeFamiliesOk();
    StateFamiliesOk();
    SlotFamiliesOk();
    LoopFamiliesOk();
  }

  lemma MergeFamiliesOk()
    ensures forall fam :: fam in MERGE_FAMILIES ==> FamilyOk(fam)
  {
    forall i | 0 <= i < |MERGE_FAMILIES| ensures FamilyOk(MERGE_FAMILIES[i]) {
    }
  }

  lemma {:induction false} StateFamiliesOk()
    ensures forall fam :: fam in STATE_FAMILIES ==> FamilyOk(fam)
  {
    forall i | 0 <= i < |STATE_FAMILIES| ensures FamilyOk(STATE_FAMILIES[i]) {
    }
  }

  lemma SlotFamiliesOk()
    ensures forall fam :: fam in SLOT_FAMILIES ==> FamilyOk(fam)
  {
    forall i | 0 <= i < |SLOT_FAMILIES| ensures FamilyOk(SLOT_FAMILIES[i]) {
    }
  }

  lemma LoopFamiliesOk()
    ensures forall fam :: fam in LOOP_FAMILIES ==> FamilyOk(fam)
  {
    forall i | 0 <= i < |LOOP_FAMILIES| ensures FamilyOk(LOOP_FAMILIES[i]) {
    }
  }

  // ----- a generated case -----

  datatype Shape = Shape(
    slots: seq<Member>, fields: seq<Member>,
    constructorArgs: seq<Value>, methodArgs: seq<Value>,
    source: Contract, renamed: Contract, swapped: Option<Contract>,
    expectedState: Option<map<string, Value>>, accepts: bool, sats: nat)

  /** Prediction and program agree: the spend of the picked call is accepted exactly on accept intent,
      and then its one output carries the expected value of every field, in field order. */
  ghost predicate OracleHolds(shape: Shape) {
    var verdict := Spend(shape.source, shape.constructorArgs, shape.methodArgs);
    && (shape.expectedState.Some? <==> shape.accepts)
    && (!shape.accepts ==> verdict == Reject)
    && (shape.accepts ==>
        && verdict.Accept? && |verdict.outputs| == 1 && verdict.outputs[0].sats == shape.sats
        && |verdict.outputs[0].vals| == |shape.fields|
        && forall i :: 0 <= i < |shape.fields| ==>
             shape.fields[i].name in shape.expectedState.value
             && verdict.outputs[0].vals[i] == shape.expectedState.value[shape.fields[i].name])
  }

  /** A variant behaves like the base program for every deployment and every call. */
  ghost predicate SameBehaviour(a: Contract, b: Contract) {
    forall ctorArgs, args :: Spend(a, ctorArgs, args) == Spend(b, ctorArgs, args)
  }

  // ----- picking -----

  method PickSlotTypes(fam: Family, rng: Rng) returns (types: seq<ShapeType>)
    requires FamilyOk(fam)
    modifies rng
    ensures fam.slotTypes.Some? ==> types == fam.slotTypes.value
    ensures fam.slotTypes.None? && fam.slotCount.Some? ==> |types| == fam.slotCount.value
    ensures fam.slotTypes.None? && fam.slotCount.None? ==> |types| <= 2
  {
    if fam.slotTypes.Some? {
      return fam.slotTypes.value;
    }
    var n: int;
    if fam.slotCount.Some? {
      n := fam.slotCount.value;
    } else {
      n := rng.NextInt(0, 2);
    }
    types := [];
    for i := 0 to n
      invariant |types| == i
    {
      var t := rng.Pick(FIELD_TYPES);
      types := types + [t];
    }
  }

  predicate Given(fam: Family, i: nat) {
    fam.slotValues.Some? && i < |fam.slotValues.value|
  }

  method PickSlotValue(fam: Family, si: nat, ty: ShapeType, rng: Rng) returns (v: Value)
    requires FamilyOk(fam) && (fam.slotTypes.Some? ==> si < |fam.slotTypes.value| && fam.slotTypes.value[si] == ty)
    modifies rng
    ensures HasType(v, ty) && (Given(fam, si) ==> v == fam.slotValues.value[si])
  {
    if Given(fam, si) {
      v := fam.slotValues.value[si];
    } else {
      v := rng.Pick(ClassesFor(ty));
    }
  }

  method PickSlots(fam: Family, rng: Rng) returns (slots: seq<Member>)
    requires FamilyOk(fam)
    modifies rng
    ensures NamedSlots(slots)
    ensures fam.slotTypes.Some? ==>
              |slots| == |fam.slotTypes.value| && forall i :: 0 <= i < |slots| ==> slots[i].ty == fam.slotTypes.value[i]
    ensures fam.slotTypes.None? && fam.slotCount.Some? ==> |slots| == fam.slotCount.value
    ensures fam.slotTypes.None? && fam.slotCount.None? ==> |slots| <= 2
    ensures forall i :: 0 <= i < |slots| && Given(fam, i) ==> slots[i].value == fam.slotValues.value[i]
  {
    var types := PickSlotTypes(fam, rng);
    slots := [];
    for si := 0 to |types|
      invariant |slots| == si && NamedSlots(slots)
      invariant forall i :: 0 <= i < si ==> slots[i].ty == types[i]
      invariant forall i :: 0 <= i < si && Given(fam, i) ==> slots[i].value == fam.slotValues.value[i]
    {
      var v := PickSlotValue(fam, si, types[si], rng);
      hide HasType, FamilyOk;
      slots := slots + [Member(S(si), types[si], v)];
    }
  }

  method PickFields(fam: Family, k: nat, rng: Rng) returns (fields: seq<Member>)
    requires FamilyOk(fam)
    modifies rng
    ensures |fields| == k && NamedFields(fields)
    ensures fam.loop.Some? ==> forall i :: 0 <= i < k ==> fields[i].value.Int?
    ensures k > 0 && fam.loop.None? && fam.pinnedType.Some? && fam.pinnedValue.Some? ==>
              fields[0].ty == fam.pinnedType.value && fields[0].value == fam.pinnedValue.value
  {
    fields := [];
    for fi := 0 to k
      invariant |fields| == fi && NamedFields(fields)
      invariant fam.loop.Some? ==> forall i :: 0 <= i < fi ==> fields[i].value.Int?
      invariant fi > 0 && fam.loop.None? && fam.pinnedType.Some? && fam.pinnedValue.Some? ==>
                  fields[0].ty == fam.pinnedType.value && fields[0].value == fam.pinnedValue.value
    {
      if fam.loop.Some? {
        var v := rng.Pick(LOOP_SEED_VALUES);
        fields := fields + [Member(F(fi), BigintT, v)];
      } else {
        var pinned := fi == 0 && fam.pinnedType.Some?;
        var ty, v;
        if pinned {
          ty := fam.pinnedType.value;
        } else {
          ty := rng.Pick(FIELD_TYPES);
        }
        if pinned && fam.pinnedValue.Some? {
          v := fam.pinnedValue.value;
        } else {
          v := rng.Pick(ClassesFor(ty));
        }
        fields := fields + [Member(F(fi), ty, v)];
      }
    }
  }

  /** The parameter that carries a given type, if one does. */
  ghost predicate ParamsFit(byType: map<ShapeType, string>, types: seq<ShapeType>, params: seq<string>) {
    && |types| == |params| > 0 && NumberedParams(params) && types[0] == BigintT
    && forall t :: t in byType ==> exists i :: 0 <= i < |params| && params[i] == byType[t] && types[i] == t
  }

  /** p0 drives the branch; one more parameter for each other type among the fields. */
  method DeclareParams(fields: seq<Member>)
    returns (params: seq<string>, types: seq<ShapeType>, byType: map<ShapeType, string>)
    ensures ParamsFit(byType, types, params)
    ensures forall f :: f in fields ==> f.ty in byType
  {
    var used := set f | f in fields :: f.ty;
    params, types, byType := [P(0)], [BigintT], map[BigintT := P(0)];
    var order := [ByteStringT, PubKeyT, BooleanT];
    for n := 0 to |order|
      invariant ParamsFit(byType, types, params)
      invariant BigintT in byType
      invariant forall m :: 0 <= m < n && order[m] in used ==> order[m] in byType
    {
      if order[n] in used {
        var p := P(|params|);
        ghost var params', types' := params, types;
        params, types := params + [p], types + [order[n]];
        byType := byType[order[n] := p];
        forall t | t in byType
          ensures exists i :: 0 <= i < |params| && params[i] == byType[t] && types[i] == t
        {
          if t == order[n] {
            assert params[|params'|] == byType[t] && types[|params'|] == t;
          } else {
            var i :| 0 <= i < |params'| && params'[i] == byType[t] && types'[i] == t;
            assert params[i] == byType[t] && types[i] == t;
          }
        }
      }
    }
    forall f | f in fields ensures f.ty in byType {
      assert f.ty in used;
      match f.ty {
        case BigintT =>
        case ByteStringT => assert order[0] in byType;
        case PubKeyT => assert order[1] in byType;
        case BooleanT => assert order[2] in byType;
      }
    }
  }

  /** The picked p0 makes `p0 > 0` come out as picked; a loop takes p0 as its step. */
  method PickP0(isLoop: bool, rng: Rng) returns (condTrue: bool, p0: int)
    modifies rng
    ensures condTrue <==> p0 > 0
    ensures isLoop ==> 1 <= p0 <= 6
  {
    if isLoop {
      condTrue := true;
      p0 := rng.NextInt(1, 6);
    } else {
      condTrue := rng.NextBool();
      if condTrue {
        p0 := rng.NextInt(1, 4000);
      } else {
        p0 := rng.NextInt(-4000, 0);
      }
    }
  }

  method PickArgs(p0: int, types: seq<ShapeType>, rng: Rng) returns (args: seq<Value>)
    requires |types| > 0 && types[0] == BigintT
    modifies rng
    ensures |args| == |types| && args[0] == Int(p0)
    ensures forall i :: 0 <= i < |args| ==> HasType(args[i], types[i])
  {
    args := [Int(p0)];
    for i := 1 to |types|
      invariant |args| == i && args[0] == Int(p0)
      invariant forall j :: 0 <= j < i ==> HasType(args[j], types[j])
    {
      var v := rng.Pick(ClassesFor(types[i]));
      args := args + [v];
    }
  }

  /** An arm's new value for a field: the parameter of its type, or a fresh literal of its type. */
  method ArmValue(f: Member, byType: map<ShapeType, string>, env: map<string, Value>, rng: Rng) returns (a: Assignment)
    requires forall t :: t in byType ==> byType[t] in env && HasType(env[byType[t]], t)
    modifies rng
    ensures Sound(a, env) && HasType(a.value, f.ty)
  {
    if f.ty in byType {
      var useParam := rng.NextBool();
      if useParam {
        return Assignment(Var(byType[f.ty]), env[byType[f.ty]]);
      }
    }
    var v := rng.Pick(ClassesFor(f.ty));
    a := Assignment(Lit(v), v);
  }

  datatype Arms = Arms(thn: Arm, els: Arm, innerThn: Arm, innerEls: Arm)

  ghost predicate SoundArms(arms: Arms, env: map<string, Value>) {
    SoundArm(arms.thn, env) && SoundArm(arms.els, env) && SoundArm(arms.innerThn, env) && SoundArm(arms.innerEls, env)
  }

  /** The domain of every arm, by style: which locals each path rebinds. */
  ghost predicate Topology(style: ArmStyle, arms: Arms, k: nat, split: nat) {
    && (forall i: nat :: i in arms.thn <==>
          i < match style { case Both => k case NoElse => k case Asymmetric => split case _ => 0 })
    && (forall i: nat :: i in arms.els <==>
          i < k && match style { case Both => true case Nested => true case Asymmetric => split <= i case _ => false })
    && (forall i: nat :: i in arms.innerThn <==>
          i < match style { case Nested => k case NestedSibling => split case _ => 0 })
    && (forall i: nat :: i in arms.innerEls <==> i in arms.innerThn)
  }

  method PickArms(style: ArmStyle, fields: seq<Member>, byType: map<ShapeType, string>, env: map<string, Value>, rng: Rng)
    returns (arms: Arms, split: nat)
    requires |fields| > 0
    requires forall t :: t in byType ==> byType[t] in env && HasType(env[byType[t]], t)
    modifies rng
    ensures SoundArms(arms, env) && Topology(style, arms, |fields|, split)
    ensures 1 <= split <= |fields| && (|fields| > 1 ==> split < |fields|)
  {
    var k := |fields|;
    var thn: Arm, els: Arm, innerThn: Arm, innerEls: Arm := map[], map[], map[], map[];
    split := 1;
    if (style == Asymmetric || style == NestedSibling) && k > 1 {
      split := rng.NextInt(1, k - 1);
    }
    for fi := 0 to k
      invariant SoundArms(Arms(thn, els, innerThn, innerEls), env)
      invariant forall i: nat :: i in thn <==> i < fi && (style == Both || style == NoElse || (style == Asymmetric && i < split))
      invariant forall i: nat :: i in els <==> i < fi && (style == Both || style == Nested || (style == Asymmetric && split <= i))
      invariant forall i: nat :: i in innerThn <==> i < fi && (style == Nested || (style == NestedSibling && i < split))
      invariant forall i: nat :: i in innerEls <==> i in innerThn
    {
      if style == Both || style == NoElse || (style == Asymmetric && fi < split) {
        var a := ArmValue(fields[fi], byType, env, rng);
        thn := thn[fi := a];
      }
      if style == Nested || (style == NestedSibling && fi < split) {
        var a := ArmValue(fields[fi], byType, env, rng);
        var b := ArmValue(fields[fi], byType, env, rng);
        innerThn, innerEls := innerThn[fi := a], innerEls[fi := b];
      }
      if style == Both || style == Nested || (style == Asymmetric && split <= fi) {
        var a := ArmValue(fields[fi], byType, env, rng);
        els := els[fi := a];
      }
    }
    arms := Arms(thn, els, innerThn, innerEls);
  }

  // ----- the prediction -----

  /** The expected post-state: the loop's arithmetic, or whichever arm the picked p0 takes. */
  method Predict(o: RenderOptions, args: seq<Value>, condTrue: bool, innerTrue: bool) returns (expected: map<string, Value>)
    requires OptionsOk(o, args)
    requires condTrue <==> o.guardValue > 0
    requires innerTrue <==> o.guardValue > 2000
    ensures forall i :: 0 <= i < |o.fields| ==>
              o.fields[i].name in expected && expected[o.fields[i].name] == Predicted(o, args)[i]
  {
    var k := |o.fields|;
    expected := map[];
    if o.loop.Some? {
      var post := ModelLoop(o.loop.value, AsInts(Values(o.fields)), o.guardValue);
      for fi := 0 to k
        invariant forall i :: 0 <= i < fi ==> F(i) in expected && expected[F(i)] == Int(post[i])
      {
        FieldNames(fi);
        expected := expected[o.fields[fi].name := Int(post[fi])];
      }
      return;
    }
    for fi := 0 to k
      invariant forall i :: 0 <= i < fi ==> F(i) in expected && expected[F(i)] == Predicted(o, args)[i]
    {
      var v := o.fields[fi].value;
      if o.arms == Nested || o.arms == NestedSibling {
        if condTrue {
          var inner := if innerTrue then o.innerThen else o.innerElse;
          if fi in inner {
            v := inner[fi].value;
          }
        } else if fi in o.elseArm {
          v := o.elseArm[fi].value;
        }
      } else if condTrue {
        if fi in o.thenArm {
          v := o.thenArm[fi].value;
        }
      } else if fi in o.elseArm {
        v := o.elseArm[fi].value;
      }
      FieldNames(fi);
      expected := expected[o.fields[fi].name := v];
    }
  }

  lemma FieldNames(k: nat)
    ensures forall i: nat :: F(i) == F(k) ==> i == k
  {
    forall i: nat | F(i) == F(k) ensures i == k {
      NameInjective('f', i, 'f', k);
    }
  }

  // ----- the generator -----

  lemma TypedEnv(params: seq<string>, types: seq<ShapeType>, byType: map<ShapeType, string>, args: seq<Value>)
    requires ParamsFit(byType, types, params) && |args| == |types|
    requires forall i :: 0 <= i < |args| ==> HasType(args[i], types[i])
    ensures forall t :: t in byType ==> byType[t] in Zip(params, args) && HasType(Zip(params, args)[byType[t]], t)
  {
    ParamEnv(params, args);
    forall t | t in byType
      ensures byType[t] in Zip(params, args) && HasType(Zip(params, args)[byType[t]], t)
    {
      var i :| 0 <= i < |params| && params[i] == byType[t] && types[i] == t;
      assert params[i] == P(i);
    }
  }

  /** The method's parameters and the picked call. */
  method PickCall(fields: seq<Member>, isLoop: bool, rng: Rng)
    returns (params: seq<string>, byType: map<ShapeType, string>, condTrue: bool, p0: int, args: seq<Value>)
    modifies rng
    ensures |params| == |args| > 0 && NumberedParams(params) && args[0] == Int(p0)
    ensures condTrue <==> p0 > 0
    ensures isLoop ==> 1 <= p0 <= 6
    ensures forall f :: f in fields ==> f.ty in byType
    ensures forall t :: t in byType ==> byType[t] in Zip(params, args) && HasType(Zip(params, args)[byType[t]], t)
  {
    var types;
    params, types, byType := DeclareParams(fields);
    condTrue, p0 := PickP0(isLoop, rng);
    args := PickArgs(p0, types, rng);
    TypedEnv(params, types, byType, args);
  }

  /** Slots and fields as far as the family pins them. */
  predicate Follows(fam: Family, slots: seq<Member>, fields: seq<Member>) {
    && (fam.slotTypes.Some? ==>
          |slots| == |fam.slotTypes.value| && forall i :: 0 <= i < |slots| ==> slots[i].ty == fam.slotTypes.value[i])
    && (fam.slotTypes.None? && fam.slotCount.Some? ==> |slots| == fam.slotCount.value)
    && (forall i :: 0 <= i < |slots| && Given(fam, i) ==> slots[i].value == fam.slotValues.value[i])
    && (fam.k.Some? ==> |fields| == fam.k.value) && |fields| > 0
    && (fam.loop.None? && fam.pinnedType.Some? && fam.pinnedValue.Some? ==>
          fields[0].ty == fam.pinnedType.value && fields[0].value == fam.pinnedValue.value)
  }

  /** All the draws of one case, in order. */
  method PickOptions(fam: Family, rng: Rng)
    returns (o: RenderOptions, args: seq<Value>, condTrue: bool, innerTrue: bool, ghost split: nat)
    requires FamilyOk(fam)
    modifies rng
    ensures OptionsOk(o, args) && !o.swapArms
    ensures condTrue <==> o.guardValue > 0
    ensures innerTrue <==> o.guardValue > 2000
    ensures o.guardTrue == !fam.rejects && o.loop == fam.loop && o.sats == 1000
    ensures fam.arms.Some? ==> o.arms == fam.arms.value
    ensures Follows(fam, o.slots, o.fields)
    ensures 1 <= split <= |o.fields| && (|o.fields| > 1 ==> split < |o.fields|)
    ensures fam.loop.None? ==>
              Topology(o.arms, Arms(o.thenArm, o.elseArm, o.innerThen, o.innerElse), |o.fields|, split)
  {
    var slots := PickSlots(fam, rng);
    var k: int;
    if fam.k.Some? {
      k := fam.k.value;
    } else {
      k := rng.NextInt(1, 4);
    }
    var fields := PickFields(fam, k, rng);
    var params, byType, p0;
    params, byType, condTrue, p0, args := PickCall(fields, fam.loop.Some?, rng);
    innerTrue := condTrue && p0 > 2000;
    var style;
    if fam.arms.Some? {
      style := fam.arms.value;
    } else {
      style := rng.Pick([Both, Asymmetric, NoElse, Nested, NestedSibling]);
    }
    var arms := Arms(map[], map[], map[], map[]);
    split := 1;
    if fam.loop.None? {
      arms, split := PickArms(style, fields, byType, Zip(params, args), rng);
      assert (style == NoElse || style == NestedSibling) ==> arms.els.Keys == {};
    }
    o := RenderOptions(slots, fields, params, !fam.rejects, p0, style,
                       arms.thn, arms.els, arms.innerThn, arms.innerEls, 1000, false, fam.loop);
  }

  /** One case. For every stream of draws and every well-formed family: the verdict and the outputs of
      the rendered contract are the predicted ones, and both variants behave like it everywhere. */
  method BuildShape(fam: Family, rng: Rng) returns (shape: Shape, ghost o: RenderOptions, ghost split: nat)
    requires FamilyOk(fam)
    modifies rng
    ensures OracleHolds(shape)
    ensures SameBehaviour(shape.renamed, shape.source) && shape.renamed == RenameLocals(shape.source)
    ensures shape.swapped.Some? ==> SameBehaviour(shape.swapped.value, shape.source)
    ensures shape.swapped.Some? <==> o.arms in {Both, Asymmetric} && |o.thenArm| > 0 && |o.elseArm| > 0
    ensures shape.accepts <==> !fam.rejects
    ensures shape.constructorArgs == Values(shape.slots + shape.fields)
    ensures OptionsOk(o, shape.methodArgs) && shape.source == Rendered(o)
    ensures o.slots == shape.slots && o.fields == shape.fields && o.loop == fam.loop
    ensures fam.arms.Some? ==> o.arms == fam.arms.value
    ensures Follows(fam, shape.slots, shape.fields)
    ensures 1 <= split <= |o.fields| && (|o.fields| > 1 ==> split < |o.fields|)
    ensures fam.loop.None? ==>
              Topology(o.arms, Arms(o.thenArm, o.elseArm, o.innerThen, o.innerElse), |o.fields|, split)
  {
    var opts, args, condTrue, innerTrue, split' := PickOptions(fam, rng);
    o, split := opts, split';
    var expected := Predict(opts, args, condTrue, innerTrue);
    var source := RenderShape(opts);
    var swapped := None;
    if opts.arms != Nested && opts.arms != NestedSibling && opts.arms != NoElse && |opts.thenArm| > 0 && |opts.elseArm| > 0 {
      var c := RenderShape(opts.(swapArms := true));
      swapped := Some(c);
      SwappedBehaves(opts);
    }
    RenamedBehaves(opts, args);
    shape := Shape(opts.slots, opts.fields, Values(opts.slots + opts.fields), args,
                   source, RenameLocals(source), swapped,
                   if fam.rejects then None else Some(expected), !fam.rejects, 1000);
    PredictionIsOracle(shape, opts, expected);
  }

  /** What every generated case keeps: the oracle holds, the variants behave like the base program, and
      the intent and all that the family pins are the family's. */
  ghost predicate CaseHolds(shape: Shape, fam: Family) {
    && OracleHolds(shape) && SameBehaviour(shape.renamed, shape.source)
    && (shape.swapped.Some? ==> SameBehaviour(shape.swapped.value, shape.source))
    && (shape.accepts <==> !fam.rejects)
    && Follows(fam, shape.slots, shape.fields)
  }

  method BuildCase(fam: Family, rng: Rng) returns (shape: Shape)
    requires FamilyOk(fam)
    modifies rng
    ensures CaseHolds(shape, fam)
  {
    hide OracleHolds, SameBehaviour, Follows, FamilyOk;
    ghost var o, split;
    shape, o, split := BuildShape(fam, rng);
  }

  /** Cases for the families of a table, one after the other around it, each with its own stream of draws. */
  method CasesAround(table: seq<Family>, count: nat, streams: nat -> nat -> nat) returns (shapes: seq<Shape>)
    requires |table| > 0 && forall fam :: fam in table ==> FamilyOk(fam)
    ensures |shapes| == count
    ensures forall i :: 0 <= i < count ==> CaseHolds(shapes[i], table[i % |table|])
  {
    hide *;
    shapes := [];
    for i := 0 to count
      invariant |shapes| == i
      invariant forall j :: 0 <= j < i ==> CaseHolds(shapes[j], table[j % |table|])
    {
      var rng := new Rng(streams(i));
      var fam := table[i % |table|];
      assert fam in table;
      var shape := BuildCase(fam, rng);
      shapes := shapes + [shape];
    }
  }

  /** A run of cases over the shipped table. */
  method GenerateShapes(count: nat, streams: nat -> nat -> nat) returns (shapes: seq<Shape>)
    ensures |shapes| == count
    ensures forall i :: 0 <= i < count ==> CaseHolds(shapes[i], FAMILIES[i % |FAMILIES|])
  {
    hide *;
    ShippedFamiliesOk();
    shapes := CasesAround(FAMILIES, count, streams);
  }

  lemma PredictionIsOracle(shape: Shape, o: RenderOptions, expected: map<string, Value>)
    requires OptionsOk(o, shape.methodArgs)
    requires shape.source == Rendered(o) && shape.fields == o.fields && shape.sats == o.sats
    requires shape.constructorArgs == Values(o.slots + o.fields)
    requires shape.accepts == o.guardTrue
    requires shape.expectedState == if shape.accepts then Some(expected) else None
    requires forall i :: 0 <= i < |o.fields| ==>
               o.fields[i].name in expected && expected[o.fields[i].name] == Predicted(o, shape.methodArgs)[i]
    ensures OracleHolds(shape)
  {
    RenderedMeetsPrediction(o, shape.methodArgs);
  }

  lemma SwappedBehaves(o: RenderOptions)
    requires !o.swapArms
    ensures SameBehaviour(Rendered(o.(swapArms := true)), Rendered(o))
  {
    assert o == o.(swapArms := false);
    forall ctorArgs, args
      ensures Spend(Rendered(o.(swapArms := true)), ctorArgs, args) == Spend(Rendered(o), ctorArgs, args)
    {
      SwapPreservesSpend(o, ctorArgs, args);
    }
  }

  lemma RenamedBehaves(o: RenderOptions, args: seq<Value>)
    requires OptionsOk(o, args)
    ensures SameBehaviour(RenameLocals(Rendered(o)), Rendered(o))
  {
    forall ctorArgs', args'
      ensures Spend(RenameLocals(Rendered(o)), ctorArgs', args') == Spend(Rendered(o), ctorArgs', args')
    {
      RenamePreservesRendered(o, args, ctorArgs', args');
    }
  }
}
