/** The delta-debugging reducer: greedy single-item deletion to a local minimum. */
module AnfReducer {
  import opened Collections
  import opened Wrappers
  import opened Anf

  // ----- references and well-formedness -----

  /** The sibling bindings a value names. */
  function BindingRefs(v: AnfValue): seq<string> {
    match v
    case BinOp(_, l, r) => [l, r]
    case UnaryOp(_, x) => [x]
    case Call(_, args) => args
    case ArrayLiteral(es) => es
    case Assert(x) => [x]
    case UpdateProp(_, x) => [x]
    case _ => []
  }

  function ParamRef(v: AnfValue): Option<string> {
    if v.LoadParam? then Some(v.name) else None
  }

  function PropRef(v: AnfValue): Option<string> {
    if v.LoadProp? || v.UpdateProp? then Some(v.name) else None
  }

  /** Existence only: position in the body plays no part. */
  predicate ValueResolves(v: AnfValue, names: seq<string>, params: seq<string>, props: seq<string>) {
    && (forall r :: r in BindingRefs(v) ==> r in names)
    && (ParamRef(v).Some? ==> ParamRef(v).value in params)
    && (PropRef(v).Some? ==> PropRef(v).value in props)
  }

  predicate MethodResolves(m: Method, props: seq<string>) {
    forall b :: b in m.body ==> ValueResolves(b.value, NamesOf(m.body), DeclNames(m.params), props)
  }

  predicate WellFormed(p: Program) {
    forall m :: m in p.methods ==> MethodResolves(m, DeclNames(Decls(p.properties)))
  }

  method IsWellFormed(p: Program) returns (ok: bool)
    ensures ok <==> WellFormed(p)
  {
    var propNames := DeclNames(Decls(p.properties));
    for i := 0 to |p.methods|
      invariant forall j :: 0 <= j < i ==> MethodResolves(p.methods[j], propNames)
    {
      var m := p.methods[i];
      var names, params := NamesOf(m.body), DeclNames(m.params);
      for bi := 0 to |m.body|
        invariant forall j :: 0 <= j < bi ==> ValueResolves(m.body[j].value, names, params, propNames)
      {
        var v := m.body[bi].value;
        var refs := BindingRefs(v);
        for k := 0 to |refs|
          invariant forall j :: 0 <= j < k ==> refs[j] in names
        {
          if refs[k] !in names {
            assert m.body[bi] in m.body && m in p.methods;
            return false;
          }
        }
        if ParamRef(v).Some? && ParamRef(v).value !in params {
          assert m.body[bi] in m.body && m in p.methods;
          return false;
        }
        if PropRef(v).Some? && PropRef(v).value !in propNames {
          assert m.body[bi] in m.body && m in p.methods;
          return false;
        }
      }
    }
    ok := true;
  }

  /** A binding reads exactly what it refers to: it is stuck without any of it, and nothing else matters. */
  lemma {:induction false} ReadsItsReferences(b: Binding, st: State, st': State, params: map<string, Val>, params': map<string, Val>,
                                              bits: (Operator, int, int) -> int)
    ensures !Step(b, st, params, bits).Stuck? ==>
              (forall r :: r in BindingRefs(b.value) ==> r in st.vars)
              && (ParamRef(b.value).Some? ==> ParamRef(b.value).value in params)
              && (PropRef(b.value).Some? ==> PropRef(b.value).value in st.props)
    ensures (forall r :: r in BindingRefs(b.value) ==> r in st.vars && r in st'.vars && st.vars[r] == st'.vars[r])
            && (ParamRef(b.value).Some? ==> Lookup(params, ParamRef(b.value).value) == Lookup(params', ParamRef(b.value).value))
            && (PropRef(b.value).Some? ==> Lookup(st.props, PropRef(b.value).value) == Lookup(st'.props, PropRef(b.value).value))
            ==> (Step(b, st, params, bits).Stuck? <==> Step(b, st', params', bits).Stuck?)
                && EvalValue(b.value, st, params, bits) == EvalValue(b.value, st', params', bits)
  {
  }

  // ----- deletions -----

  datatype Deletion = DelBinding(mi: nat, bi: nat) | DelParam(mi: nat, pi: nat) | DelProperty(pi: nat) | DelMethod(mi: nat)

  /** Where position j of a sequence without its k-th element was. */
  function Index(k: nat, j: nat): nat {
    if j < k then j else j + 1
  }

  function Drop<T>(s: seq<T>, i: nat): (r: seq<T>)
    requires i < |s|
    ensures |r| == |s| - 1
    ensures forall k {:trigger r[k]} :: 0 <= k < |r| ==> r[k] == s[Index(i, k)]
  {
    s[..i] + s[i + 1..]
  }

  predicate Applies(d: Deletion, p: Program) {
    match d
    case DelBinding(mi, bi) => mi < |p.methods| && bi < |p.methods[mi].body|
    case DelParam(mi, pi) => mi < |p.methods| && pi < |p.methods[mi].params|
    case DelProperty(pi) => pi < |p.properties|
    case DelMethod(mi) => mi < |p.methods|
  }

  function Delete(p: Program, d: Deletion): Program
    requires Applies(d, p)
  {
    match d
    case DelBinding(mi, bi) =>
      p.(methods := p.methods[mi := p.methods[mi].(body := Drop(p.methods[mi].body, bi))])
    case DelParam(mi, pi) =>
      p.(methods := p.methods[mi := p.methods[mi].(params := Drop(p.methods[mi].params, pi))])
    case DelProperty(pi) => p.(properties := Drop(p.properties, pi))
    case DelMethod(mi) => p.(methods := Drop(p.methods, mi))
  }

  function ItemCount(ms: seq<Method>): nat {
    if ms == [] then 0
    else ItemCount(ms[..|ms| - 1]) + 1 + |ms[|ms| - 1].params| + |ms[|ms| - 1].body|
  }

  /** Bindings, parameters, properties and methods. */
  function Size(p: Program): nat {
    |p.properties| + ItemCount(p.methods)
  }

  lemma {:induction false} ItemCountUpdate(ms: seq<Method>, i: nat, m: Method)
    requires i < |ms|
    ensures ItemCount(ms[i := m]) == ItemCount(ms) - |ms[i].params| - |ms[i].body| + |m.params| + |m.body|
  {
    var n := |ms| - 1;
    if i < n {
      ItemCountUpdate(ms[..n], i, m);
      assert ms[i := m][..n] == ms[..n][i := m];
    } else {
      assert ms[i := m][..n] == ms[..n];
    }
  }

  lemma {:induction false} ItemCountDrop(ms: seq<Method>, i: nat)
    requires i < |ms|
    ensures ItemCount(Drop(ms, i)) == ItemCount(ms) - 1 - |ms[i].params| - |ms[i].body|
  {
    var n := |ms| - 1;
    if i < n {
      ItemCountDrop(ms[..n], i);
      assert Drop(ms, i)[..n - 1] == Drop(ms[..n], i);
    } else {
      assert Drop(ms, i) == ms[..n];
    }
  }

  lemma {:induction false} DeleteShrinks(p: Program, d: Deletion)
    requires Applies(d, p)
    ensures Size(Delete(p, d)) < Size(p)
  {
    match d
    case DelBinding(mi, bi) => ItemCountUpdate(p.methods, mi, p.methods[mi].(body := Drop(p.methods[mi].body, bi)));
    case DelParam(mi, pi) => ItemCountUpdate(p.methods, mi, p.methods[mi].(params := Drop(p.methods[mi].params, pi)));
    case DelProperty(_) =>
    case DelMethod(mi) => ItemCountDrop(p.methods, mi);
  }

  function Rank(d: Deletion): nat {
    match d case DelBinding(_, _) => 0 case DelParam(_, _) => 1 case DelProperty(_) => 2 case DelMethod(_) => 3
  }

  /** The order in which candidates are tried: by kind, then by position. */
  predicate Before(d: Deletion, e: Deletion) {
    match (d, e)
    case (DelBinding(a, b), DelBinding(x, y)) => a < x || (a == x && b < y)
    case (DelParam(a, b), DelParam(x, y)) => a < x || (a == x && b < y)
    case (DelProperty(b), DelProperty(y)) => b < y
    case (DelMethod(a), DelMethod(x)) => a < x
    case _ => Rank(d) < Rank(e)
  }

  ghost predicate Ranked(dels: seq<Deletion>) {
    forall i, j :: 0 <= i < j < |dels| ==> Before(dels[i], dels[j])
  }

  /** The candidates are the results of every single-item deletion, each once, in order. */
  ghost predicate Enumerates(p: Program, cands: seq<Program>) {
    exists dels :: Yields(p, cands, dels) && Ranked(dels) && forall d :: Applies(d, p) ==> d in dels
  }

  ghost predicate Yields(p: Program, cands: seq<Program>, dels: seq<Deletion>) {
    |cands| == |dels| && forall i :: 0 <= i < |dels| ==> Applies(dels[i], p) && cands[i] == Delete(p, dels[i])
  }

  lemma {:induction false} OneMore(p: Program, cands: seq<Program>, dels: seq<Deletion>, d: Deletion)
    requires Yields(p, cands, dels) && Ranked(dels) && Applies(d, p)
    requires forall i :: 0 <= i < |dels| ==> Before(dels[i], d)
    ensures Yields(p, cands + [Delete(p, d)], dels + [d]) && Ranked(dels + [d])
  {
    hide Before, Applies, Delete;
  }

  lemma {:induction false} NoneYet(p: Program)
    ensures Yields(p, [], []) && Ranked([])
  {
  }

  method BindingCandidates(p: Program) returns (cands: seq<Program>, ghost dels: seq<Deletion>)
    ensures Yields(p, cands, dels) && |dels| == BodyCount(p.methods)
    ensures forall d: Deletion :: d.DelBinding? && Applies(d, p) ==> d in dels
    ensures Ranked(dels) && forall i :: 0 <= i < |dels| ==> dels[i].DelBinding?
  {
    hide Yields, Ranked, Delete;
    NoneYet(p);
    cands, dels := [], [];
    for mi := 0 to |p.methods|
      invariant Yields(p, cands, dels) && |dels| == BodyCount(p.methods[..mi])
      invariant forall d: Deletion :: d.DelBinding? && d.mi < mi && Applies(d, p) ==> d in dels
      invariant Ranked(dels) && forall i :: 0 <= i < |dels| ==> dels[i].DelBinding? && dels[i].mi < mi
    {
      assert p.methods[..mi + 1][..mi] == p.methods[..mi];
      for bi := 0 to |p.methods[mi].body|
        invariant Yields(p, cands, dels) && |dels| == BodyCount(p.methods[..mi]) + bi
        invariant forall d: Deletion :: d.DelBinding? && d.mi < mi && Applies(d, p) ==> d in dels
        invariant forall b: nat :: b < bi ==> DelBinding(mi, b) in dels
        invariant Ranked(dels) && forall i :: 0 <= i < |dels| ==> dels[i].DelBinding? && Before(dels[i], DelBinding(mi, bi))
      {
        OneMore(p, cands, dels, DelBinding(mi, bi));
        cands := cands + [Delete(p, DelBinding(mi, bi))];
        dels := dels + [DelBinding(mi, bi)];
      }
    }
    assert p.methods[..|p.methods|] == p.methods;
  }

  method ParamCandidates(p: Program) returns (cands: seq<Program>, ghost dels: seq<Deletion>)
    ensures Yields(p, cands, dels) && |dels| == ParamCount(p.methods)
    ensures forall d: Deletion :: d.DelParam? && Applies(d, p) ==> d in dels
    ensures Ranked(dels) && forall i :: 0 <= i < |dels| ==> dels[i].DelParam?
  {
    hide Yields, Ranked, Delete;
    NoneYet(p);
    cands, dels := [], [];
    for mi := 0 to |p.methods|
      invariant Yields(p, cands, dels) && |dels| == ParamCount(p.methods[..mi])
      invariant forall d: Deletion :: d.DelParam? && d.mi < mi && Applies(d, p) ==> d in dels
      invariant Ranked(dels) && forall i :: 0 <= i < |dels| ==> dels[i].DelParam? && dels[i].mi < mi
    {
      assert p.methods[..mi + 1][..mi] == p.methods[..mi];
      for pi := 0 to |p.methods[mi].params|
        invariant Yields(p, cands, dels) && |dels| == ParamCount(p.methods[..mi]) + pi
        invariant forall d: Deletion :: d.DelParam? && d.mi < mi && Applies(d, p) ==> d in dels
        invariant forall b: nat :: b < pi ==> DelParam(mi, b) in dels
        invariant Ranked(dels) && forall i :: 0 <= i < |dels| ==> dels[i].DelParam? && Before(dels[i], DelParam(mi, pi))
      {
        OneMore(p, cands, dels, DelParam(mi, pi));
        cands := cands + [Delete(p, DelParam(mi, pi))];
        dels := dels + [DelParam(mi, pi)];
      }
    }
    assert p.methods[..|p.methods|] == p.methods;
  }

  method PropertyCandidates(p: Program) returns (cands: seq<Program>, ghost dels: seq<Deletion>)
    ensures Yields(p, cands, dels) && |dels| == |p.properties|
    ensures forall d: Deletion :: d.DelProperty? && Applies(d, p) ==> d in dels
    ensures Ranked(dels) && forall i :: 0 <= i < |dels| ==> dels[i].DelProperty?
  {
    hide Yields, Ranked, Delete;
    NoneYet(p);
    cands, dels := [], [];
    for pi := 0 to |p.properties|
      invariant Yields(p, cands, dels) && |dels| == pi
      invariant forall k: nat :: k < pi ==> DelProperty(k) in dels
      invariant Ranked(dels) && forall i :: 0 <= i < |dels| ==> dels[i].DelProperty? && Before(dels[i], DelProperty(pi))
    {
      OneMore(p, cands, dels, DelProperty(pi));
      cands := cands + [Delete(p, DelProperty(pi))];
      dels := dels + [DelProperty(pi)];
    }
  }

  method MethodCandidates(p: Program) returns (cands: seq<Program>, ghost dels: seq<Deletion>)
    ensures Yields(p, cands, dels) && |dels| == |p.methods|
    ensures forall d: Deletion :: d.DelMethod? && Applies(d, p) ==> d in dels
    ensures Ranked(dels) && forall i :: 0 <= i < |dels| ==> dels[i].DelMethod?
  {
    hide Yields, Ranked, Delete;
    NoneYet(p);
    cands, dels := [], [];
    for mi := 0 to |p.methods|
      invariant Yields(p, cands, dels) && |dels| == mi
      invariant forall k: nat :: k < mi ==> DelMethod(k) in dels
      invariant Ranked(dels) && forall i :: 0 <= i < |dels| ==> dels[i].DelMethod? && Before(dels[i], DelMethod(mi))
    {
      OneMore(p, cands, dels, DelMethod(mi));
      cands := cands + [Delete(p, DelMethod(mi))];
      dels := dels + [DelMethod(mi)];
    }
  }

  ghost predicate RanksWithin(dels: seq<Deletion>, lo: nat, hi: nat) {
    forall i :: 0 <= i < |dels| ==> lo <= Rank(dels[i]) <= hi
  }

  lemma {:induction false} JoinCandidates(p: Program, cands: seq<Program>, dels: seq<Deletion>, more: seq<Program>, dels': seq<Deletion>, r: nat)
    requires Yields(p, cands, dels) && Yields(p, more, dels') && Ranked(dels) && Ranked(dels')
    requires RanksWithin(dels, 0, r) && RanksWithin(dels', r + 1, r + 1)
    ensures Yields(p, cands + more, dels + dels') && Ranked(dels + dels') && RanksWithin(dels + dels', 0, r + 1)
  {
    hide Applies, Delete;
    var all := dels + dels';
    forall i, j | 0 <= i < j < |all| ensures Before(all[i], all[j]) {
      if i < |dels| <= j {
        assert Rank(dels[i]) < Rank(dels'[j - |dels|]);
      }
    }
  }

  /** Every single-item deletion once, in order: bindings, parameters, properties, methods. */
  method DeletionCandidates(p: Program) returns (cands: seq<Program>)
    ensures Enumerates(p, cands) && |cands| == Size(p)
  {
    hide Applies, Before, Ranked;
    ghost var dels, dels';
    var more;
    cands, dels := BindingCandidates(p);
    more, dels' := ParamCandidates(p);
    JoinCandidates(p, cands, dels, more, dels', 0);
    cands, dels := cands + more, dels + dels';
    more, dels' := PropertyCandidates(p);
    JoinCandidates(p, cands, dels, more, dels', 1);
    cands, dels := cands + more, dels + dels';
    more, dels' := MethodCandidates(p);
    JoinCandidates(p, cands, dels, more, dels', 2);
    cands, dels := cands + more, dels + dels';
    CountItems(p.methods);
    hide Yields;
    assert Enumerates(p, cands);
  }

  function BodyCount(ms: seq<Method>): nat {
    if ms == [] then 0 else BodyCount(ms[..|ms| - 1]) + |ms[|ms| - 1].body|
  }

  function ParamCount(ms: seq<Method>): nat {
    if ms == [] then 0 else ParamCount(ms[..|ms| - 1]) + |ms[|ms| - 1].params|
  }

  lemma {:induction false} CountItems(ms: seq<Method>)
    ensures ItemCount(ms) == BodyCount(ms) + ParamCount(ms) + |ms|
  {
    if ms != [] { CountItems(ms[..|ms| - 1]); }
  }

  // ----- the driver -----

  /** `None` is a predicate that threw. */
  type Predicate = Program -> Option<bool>

  predicate Interesting(pred: Predicate, p: Program) {
    pred(p) == Some(true)
  }

  ghost predicate IsDeletion(p: Program, q: Program) {
    exists d :: Applies(d, p) && q == Delete(p, d)
  }

  /** A run of the reducer: one kept deletion after another. */
  ghost predicate ReductionRun(trace: seq<Program>, pred: Predicate) {
    var n := |trace| - 1;
    && n >= 0
    && (n > 0 ==>
        && ReductionRun(trace[..n], pred)
        && IsDeletion(trace[n - 1], trace[n]) && WellFormed(trace[n]) && Interesting(pred, trace[n]))
  }

  /** Some run of kept deletions leads from p to q. */
  ghost predicate ReducesTo(p: Program, q: Program, pred: Predicate) {
    exists trace :: |trace| > 0 && ReductionRun(trace, pred) && trace[0] == p && trace[|trace| - 1] == q
  }

  /** The deletion is kept: its result is well-formed and interesting. */
  ghost predicate Helps(p: Program, d: Deletion, pred: Predicate) {
    Applies(d, p) && WellFormed(Delete(p, d)) && Interesting(pred, Delete(p, d))
  }

  /** The first deletion that helps, in the order in which they are tried. */
  ghost predicate FirstHelp(p: Program, d: Deletion, pred: Predicate) {
    Helps(p, d, pred) && forall e :: Before(e, d) ==> !Helps(p, e, pred)
  }

  /** No single further deletion helps. */
  ghost predicate LocallyMinimal(p: Program, pred: Predicate) {
    forall d :: !Helps(p, d, pred)
  }

  lemma BeforeIsTotal(d: Deletion, e: Deletion)
    ensures d == e || Before(d, e) || Before(e, d)
    ensures !(Before(d, e) && Before(e, d)) && !Before(d, d)
  {
  }

  lemma FirstUnique(p: Program, d: Deletion, e: Deletion, pred: Predicate)
    requires FirstHelp(p, d, pred) && FirstHelp(p, e, pred)
    ensures d == e
  {
    hide Helps, Before;
    BeforeIsTotal(d, e);
  }

  function Major(d: Deletion): nat {
    match d case DelBinding(mi, _) => mi case DelParam(mi, _) => mi case DelProperty(pi) => pi case DelMethod(mi) => mi
  }

  function Minor(d: Deletion): nat {
    match d case DelBinding(_, bi) => bi case DelParam(_, pi) => pi case _ => 0
  }

  /** If some deletion helps, one of them is the first. */
  lemma {:induction false} FirstExists(p: Program, d: Deletion, pred: Predicate)
    requires Helps(p, d, pred)
    ensures exists f :: FirstHelp(p, f, pred)
    decreases Rank(d), Major(d), Minor(d)
  {
    hide Helps;
    if e :| Before(e, d) && Helps(p, e, pred) {
      FirstExists(p, e, pred);
    } else {
      assert FirstHelp(p, d, pred);
    }
  }

  /** Keep the first deletion that helps, as long as there is one. */
  ghost function Reduced(p: Program, pred: Predicate): Program
    decreases Size(p)
  {
    if exists d :: FirstHelp(p, d, pred) then
      var d :| FirstHelp(p, d, pred);
      DeleteShrinks(p, d);
      Reduced(Delete(p, d), pred)
    else p
  }

  /** What the reducer returns: an uninteresting input comes back as it is. */
  ghost function ResultOf(p: Program, pred: Predicate): Program {
    if Interesting(pred, p) then Reduced(p, pred) else p
  }

  lemma {:induction false} ReducedStep(p: Program, d: Deletion, pred: Predicate)
    requires FirstHelp(p, d, pred)
    ensures Reduced(p, pred) == Reduced(Delete(p, d), pred)
  {
    assert Applies(d, p);
    var e :| Applies(e, p) && FirstHelp(p, e, pred) && Reduced(p, pred) == Reduced(Delete(p, e), pred);
    FirstUnique(p, d, e, pred);
  }

  lemma {:induction false} ReducedStops(p: Program, pred: Predicate)
    requires LocallyMinimal(p, pred)
    ensures Reduced(p, pred) == p
  {
    hide Helps;
  }

  function Triangle(n: nat): nat { n * (n + 1) / 2 }

  lemma {:induction false} TriangleDown(m: nat, n: nat)
    requires m < n
    ensures Triangle(m) + n <= Triangle(n)
  {
    assert n * (n + 1) == n * (n - 1) + 2 * n;
    assert m * (m + 1) <= (n - 1) * n;
  }

  /** One pass: the first deletion that helps, or none when none does, and how often it asked. */
  method FirstKept(p: Program, pred: Predicate) returns (kept: Option<Program>, ghost calls: nat)
    ensures calls <= Size(p)
    ensures kept.Some? <==> exists d :: Helps(p, d, pred)
    ensures kept.Some? ==> exists d :: Applies(d, p) && FirstHelp(p, d, pred) && kept.value == Delete(p, d)
    ensures forall d :: Applies(d, p) && FirstHelp(p, d, pred) ==> kept == Some(Delete(p, d))
  {
    hide Enumerates, WellFormed, Helps, FirstHelp;
    var cands := DeletionCandidates(p);
    calls := 0;
    for i := 0 to |cands|
      invariant calls <= i
      invariant forall k :: 0 <= k < i ==> !(WellFormed(cands[k]) && Interesting(pred, cands[k]))
    {
      var ok := IsWellFormed(cands[i]);
      if ok {
        calls := calls + 1;
        if Interesting(pred, cands[i]) {
          ghost var d := CandidateIsFirst(p, cands, i, pred);
          return Some(cands[i]), calls;
        }
      }
    }
    kept := None;
    NoCandidateKept(p, cands, pred);
    FirstHelps(p, pred);
  }

  lemma FirstHelps(p: Program, pred: Predicate)
    ensures forall d :: FirstHelp(p, d, pred) ==> Helps(p, d, pred)
  {
    hide Before;
  }

  lemma RankedIndex(dels: seq<Deletion>, i: nat, k: nat)
    requires Ranked(dels) && i < |dels| && k < |dels| && Before(dels[i], dels[k])
    ensures i < k
  {
    hide Before;
    BeforeIsTotal(dels[i], dels[k]);
  }

  lemma {:induction false} CandidateIsFirst(p: Program, cands: seq<Program>, k: nat, pred: Predicate) returns (d: Deletion)
    requires Enumerates(p, cands) && k < |cands| && WellFormed(cands[k]) && Interesting(pred, cands[k])
    requires forall i :: 0 <= i < k ==> !(WellFormed(cands[i]) && Interesting(pred, cands[i]))
    ensures Applies(d, p) && Helps(p, d, pred) && FirstHelp(p, d, pred) && cands[k] == Delete(p, d)
    ensures forall e :: FirstHelp(p, e, pred) ==> e == d
  {
    hide WellFormed, Interesting, Applies, Delete, Before;
    var dels :| Yields(p, cands, dels) && Ranked(dels) && forall d :: Applies(d, p) ==> d in dels;
    d := dels[k];
    forall e | Before(e, d) ensures !Helps(p, e, pred) {
      if Applies(e, p) {
        var i :| 0 <= i < |dels| && dels[i] == e;
        RankedIndex(dels, i, k);
        assert !(WellFormed(cands[i]) && Interesting(pred, cands[i]));
      }
    }
    hide FirstHelp;
    forall e | FirstHelp(p, e, pred) ensures e == d {
      FirstUnique(p, d, e, pred);
    }
  }

  lemma {:induction false} NoCandidateKept(p: Program, cands: seq<Program>, pred: Predicate)
    requires Enumerates(p, cands) && forall k :: 0 <= k < |cands| ==> !(WellFormed(cands[k]) && Interesting(pred, cands[k]))
    ensures LocallyMinimal(p, pred)
  {
    hide Ranked, WellFormed, Applies, Delete;
    var dels :| Yields(p, cands, dels) && Ranked(dels) && forall d :: Applies(d, p) ==> d in dels;
    forall d ensures !Helps(p, d, pred) {
      if Applies(d, p) {
        var k :| 0 <= k < |dels| && dels[k] == d;
        assert cands[k] == Delete(p, d);
      }
    }
  }

  lemma {:induction false} ExtendRun(trace: seq<Program>, q: Program, pred: Predicate)
    requires ReductionRun(trace, pred) && IsDeletion(trace[|trace| - 1], q) && WellFormed(q) && Interesting(pred, q)
    ensures ReductionRun(trace + [q], pred)
  {
    hide IsDeletion, WellFormed, Interesting;
    assert (trace + [q])[..|trace|] == trace;
  }

  lemma {:induction false} OneStep(p: Program, pred: Predicate)
    ensures ReductionRun([p], pred)
  {
  }

  lemma FirstIsKept(p: Program, d: Deletion, pred: Predicate)
    requires FirstHelp(p, d, pred)
    ensures var q := Delete(p, d);
            IsDeletion(p, q) && WellFormed(q) && Interesting(pred, q) && Size(q) < Size(p) && Reduced(p, pred) == Reduced(q, pred)
  {
    DeleteShrinks(p, d);
    ReducedStep(p, d, pred);
  }

  lemma NothingHelps(p: Program, pred: Predicate)
    requires forall d :: !Helps(p, d, pred)
    ensures LocallyMinimal(p, pred) && Reduced(p, pred) == p
  {
    ReducedStops(p, pred);
  }

  /** Delete greedily until no single deletion helps. The result is reached by kept deletions only, is
      locally minimal, and costs at most 1 + n(n+1)/2 calls of the predicate on a program of n items. */
  method ReduceAnfProgram(p: Program, pred: Predicate) returns (r: Program, ghost trace: seq<Program>, ghost calls: nat)
    ensures |trace| > 0 && ReductionRun(trace, pred) && trace[0] == p && trace[|trace| - 1] == r
    ensures r == ResultOf(p, pred)
    ensures Interesting(pred, p) ==> Interesting(pred, r) && LocallyMinimal(r, pred)
    ensures WellFormed(p) ==> WellFormed(r)
    ensures Size(r) <= Size(p)
    ensures calls <= 1 + Triangle(Size(p))
  {
    hide ReductionRun, WellFormed, IsDeletion, LocallyMinimal, Triangle, Size, Interesting, Reduced, FirstHelp, Helps;
    var current := p;
    trace, calls := [p], 1;
    OneStep(p, pred);
    if !Interesting(pred, current) {
      return current, trace, calls;
    }
    var changed := true;
    while changed
      invariant |trace| > 0 && ReductionRun(trace, pred) && trace[0] == p && trace[|trace| - 1] == current
      invariant Interesting(pred, current) && Reduced(current, pred) == Reduced(p, pred)
      invariant WellFormed(p) ==> WellFormed(current)
      invariant Size(current) <= Size(p)
      invariant changed ==> calls + Triangle(Size(current)) <= 1 + Triangle(Size(p))
      invariant !changed ==> calls <= 1 + Triangle(Size(p)) && LocallyMinimal(current, pred) && Reduced(current, pred) == current
      decreases Size(current), changed
    {
      changed := false;
      var kept, asked := FirstKept(current, pred);
      calls := calls + asked;
      if kept.Some? {
        ghost var d :| Applies(d, current) && FirstHelp(current, d, pred) && kept.value == Delete(current, d);
        FirstIsKept(current, d, pred);
        TriangleDown(Size(kept.value), Size(current));
        ExtendRun(trace, kept.value, pred);
        trace := trace + [kept.value];
        current := kept.value;
        changed := true;
      } else {
        NothingHelps(current, pred);
        if Size(current) > 0 {
          TriangleDown(0, Size(current));
        }
      }
    }
    r := current;
  }

  // ----- order: definitions stay before uses -----

  predicate RefsExist(body: seq<Binding>) {
    forall j, r :: 0 <= j < |body| && r in BindingRefs(body[j].value) ==> r in NamesOf(body)
  }

  /** Every reference names an earlier binding. */
  predicate Ordered(body: seq<Binding>) {
    forall j, r :: 0 <= j < |body| && r in BindingRefs(body[j].value) ==> r in NamesOf(body[..j])
  }

  lemma {:induction false} DropKeepsOrder(body: seq<Binding>, k: nat)
    requires k < |body| && NoRepeats(NamesOf(body)) && Ordered(body) && RefsExist(Drop(body, k))
    ensures Ordered(Drop(body, k)) && NoRepeats(NamesOf(Drop(body, k)))
  {
    var body' := Drop(body, k);
    forall j, r | 0 <= j < |body'| && r in BindingRefs(body'[j].value)
      ensures r in NamesOf(body'[..j])
    {
      var j0 := Index(k, j);
      assert r in BindingRefs(body[j0].value);
      var i0 :| 0 <= i0 < j0 && NamesOf(body[..j0])[i0] == r;
      assert r in NamesOf(body');
      var i :| 0 <= i < |body'| && NamesOf(body')[i] == r;
      assert NamesOf(body)[Index(k, i)] == r == NamesOf(body)[i0];
      assert Index(k, i) == i0 && i < j;
      assert NamesOf(body'[..j])[i] == r;
    }
    forall i, j | 0 <= i < j < |body'| ensures NamesOf(body')[i] != NamesOf(body')[j] {
      assert NamesOf(body)[Index(k, i)] != NamesOf(body)[Index(k, j)];
    }
  }

  /** Some reference of j resolves, before j, to binding i alone, while a later binding redefines it. */
  predicate LateRedefinition(body: seq<Binding>, i: nat, j: nat, k: nat) {
    && i < j < |body| && j <= k < |body|
    && body[k].name == body[i].name && body[i].name in BindingRefs(body[j].value)
    && forall m :: 0 <= m < j && m != i ==> body[m].name != body[i].name
  }

  /** Existence implies order, for every single deletion from an ordered body, exactly when no binding is
      redefined after a use that only it serves. */
  lemma {:induction false} ExistenceImpliesOrder(body: seq<Binding>)
    requires Ordered(body)
    ensures (forall i :: 0 <= i < |body| && RefsExist(Drop(body, i)) ==> Ordered(Drop(body, i)))
            <==> !(exists i, j, k :: LateRedefinition(body, i, j, k))
  {
    if exists i, j, k :: LateRedefinition(body, i, j, k) {
      var i, j, k :| LateRedefinition(body, i, j, k);
      LateRedefinitionBreaks(body, i, j, k);
    } else {
      forall i | 0 <= i < |body| && RefsExist(Drop(body, i)) ensures Ordered(Drop(body, i)) {
        NoLateRedefinitionKeeps(body, i);
      }
    }
  }

  /** The names of a body survive the deletion of one of two bindings of a name. */
  lemma {:induction false} DropDuplicateNames(body: seq<Binding>, m: nat, k: nat, r: string)
    requires m < |body| && k < |body| && m != k && body[m].name == body[k].name && r in NamesOf(body)
    ensures r in NamesOf(Drop(body, m))
  {
    var c :| 0 <= c < |body| && NamesOf(body)[c] == r;
    var e := if c == m then k else c;
    assert NamesOf(Drop(body, m))[if e < m then e else e - 1] == r;
  }

  lemma {:induction false} LastDefinitionGone(body: seq<Binding>, i: nat, j: nat)
    requires i < j < |body| && body[i].name in BindingRefs(body[j].value)
    requires forall x :: 0 <= x < j && x != i ==> body[x].name != body[i].name
    ensures !Ordered(Drop(body, i))
  {
    var body', name := Drop(body, i), body[i].name;
    assert body'[j - 1] == body[j];
    var before := NamesOf(body'[..j - 1]);
    forall x | 0 <= x < |before| ensures before[x] != name {
      assert body'[x] == body[Index(i, x)];
    }
    assert name !in before;
  }

  lemma {:induction false} LateRedefinitionBreaks(body: seq<Binding>, i: nat, j: nat, k: nat)
    requires Ordered(body) && LateRedefinition(body, i, j, k)
    ensures RefsExist(Drop(body, i)) && !Ordered(Drop(body, i))
  {
    LastDefinitionGone(body, i, j);
    var body' := Drop(body, i);
    forall a, r | 0 <= a < |body'| && r in BindingRefs(body'[a].value) ensures r in NamesOf(body') {
      var b :| 0 <= b < Index(i, a) && NamesOf(body[..Index(i, a)])[b] == r;
      assert NamesOf(body)[b] == r;
      DropDuplicateNames(body, i, k, r);
    }
  }

  lemma {:induction false} KeptEarlier(body: seq<Binding>, i: nat, a: nat, m: nat)
    requires i < |body| && a < |body| - 1 && m < Index(i, a) && m != i
    ensures body[m].name in NamesOf(Drop(body, i)[..a])
  {
    assert NamesOf(Drop(body, i)[..a])[if m < i then m else m - 1] == body[m].name;
  }

  /** A reference that still resolves is still ordered, unless its definition was the one deleted. */
  lemma {:induction false} KeptOrLate(body: seq<Binding>, i: nat, a: nat, r: string)
    requires i < |body| && Ordered(body) && a < |body| - 1
    requires r in BindingRefs(Drop(body, i)[a].value) && r in NamesOf(Drop(body, i))
    ensures r in NamesOf(Drop(body, i)[..a]) || exists j, k :: LateRedefinition(body, i, j, k)
  {
    var j := Index(i, a);
    var b :| 0 <= b < j && NamesOf(body[..j])[b] == r;
    var c :| 0 <= c < |body| - 1 && NamesOf(Drop(body, i))[c] == r;
    var k := Index(i, c);
    assert body[k].name == r && body[b].name == r && k != i && r in BindingRefs(body[j].value);
    hide Drop, NamesOf, Ordered, BindingRefs;
    if m :| 0 <= m < j && m != i && body[m].name == r {
      KeptEarlier(body, i, a, m);
    } else {
      assert b == i && LateRedefinition(body, i, j, k);
    }
  }

  lemma {:induction false} NoLateRedefinitionKeeps(body: seq<Binding>, i: nat)
    requires i < |body| && Ordered(body) && RefsExist(Drop(body, i))
    requires !exists i, j, k :: LateRedefinition(body, i, j, k)
    ensures Ordered(Drop(body, i))
  {
    var body' := Drop(body, i);
    forall a, r | 0 <= a < |body'| && r in BindingRefs(body'[a].value) ensures r in NamesOf(body'[..a]) {
      KeptOrLate(body, i, a, r);
    }
  }

  /** A concrete ordered body that one well-formed deletion puts out of order. */
  lemma {:induction false} DuplicateNamesBreakOrder()
    ensures exists body: seq<Binding>, k: nat :: k < |body| && Ordered(body) && RefsExist(Drop(body, k)) && !Ordered(Drop(body, k))
  {
    var c := Binding("t0", LoadConst(BoolConst(true)));
    var body := [c, Binding("t1", Assert("t0")), c];
    assert NamesOf(body[..1])[0] == "t0";
    assert Ordered(body);
    assert LateRedefinition(body, 0, 1, 2);
    LateRedefinitionBreaks(body, 0, 1, 2);
  }

  // ----- typing survives reduction -----

  lemma {:induction false} DeclaredIff(ds: seq<Decl>, x: string)
    ensures DeclType(ds, x).Some? <==> x in DeclNames(ds)
  {
    if ds != [] {
      DeclaredIff(ds[1..], x);
      assert DeclNames(ds) == [ds[0].name] + DeclNames(ds[1..]);
    }
  }

  lemma {:induction false} DeclaredAs(ds: seq<Decl>, x: string) returns (d: Decl)
    requires DeclType(ds, x).Some?
    ensures d in ds && d.name == x && DeclType(ds, x) == Some(TypeNamed(d.ty))
  {
    if ds[0].name == x { d := ds[0]; } else { d := DeclaredAs(ds[1..], x); }
  }

  /** Removing declarations never changes the type of a name that is still declared. */
  lemma {:induction false} DropDeclKeepsType(ds: seq<Decl>, i: nat, x: string)
    requires i < |ds| && NoRepeats(DeclNames(ds)) && DeclType(Drop(ds, i), x).Some?
    ensures DeclType(ds, x) == DeclType(Drop(ds, i), x)
  {
    var d := DeclaredAs(Drop(ds, i), x);
    var k :| 0 <= k < |Drop(ds, i)| && Drop(ds, i)[k] == d;
    assert ds[Index(i, k)] == d;
    assert DeclNames(ds)[Index(i, k)] == x;
    DeclaredIff(ds, x);
    var e := DeclaredAs(ds, x);
    var m :| 0 <= m < |ds| && ds[m] == e;
    assert DeclNames(ds)[m] == x;
  }

  lemma {:induction false} DropKeepsNoRepeats(ds: seq<Decl>, i: nat)
    requires i < |ds| && NoRepeats(DeclNames(ds))
    ensures NoRepeats(DeclNames(Drop(ds, i)))
  {
    forall a, b | 0 <= a < b < |ds| - 1 ensures DeclNames(Drop(ds, i))[a] != DeclNames(Drop(ds, i))[b] {
      assert DeclNames(ds)[Index(i, a)] != DeclNames(ds)[Index(i, b)];
    }
  }

  /** The types that a body's loads and updates rely on are the same under both declarations. */
  predicate SameDecls(v: AnfValue, ps: seq<Decl>, rs: seq<Decl>, ps': seq<Decl>, rs': seq<Decl>) {
    && (ParamRef(v).Some? ==> DeclType(ps, ParamRef(v).value) == DeclType(ps', ParamRef(v).value))
    && (PropRef(v).Some? ==> DeclType(rs, PropRef(v).value) == DeclType(rs', PropRef(v).value))
  }

  lemma {:induction false} FactsSame(body: seq<Binding>, ps: seq<Decl>, rs: seq<Decl>, ps': seq<Decl>, rs': seq<Decl>)
    requires forall b :: b in body ==> SameDecls(b.value, ps, rs, ps', rs')
    ensures Facts(body, ps, rs) == Facts(body, ps', rs')
  {
    if body != [] {
      FactsSame(body[..|body| - 1], ps, rs, ps', rs');
    }
  }

  lemma {:induction false} BodyRedeclared(body: seq<Binding>, ps: seq<Decl>, rs: seq<Decl>, ps': seq<Decl>, rs': seq<Decl>)
    requires BodyOk(body, ps, rs)
    requires forall b :: b in body ==> SameDecls(b.value, ps, rs, ps', rs')
    ensures BodyOk(body, ps', rs')
  {
    forall i | 0 <= i < |body| ensures ValueOk(body[i].value, Facts(body[..i], ps', rs'), ps', rs') {
      FactsSame(body[..i], ps, rs, ps', rs');
      assert SameDecls(body[i].value, ps, rs, ps', rs');
    }
  }

  lemma {:induction false} FactsWitness(body: seq<Binding>, ps: seq<Decl>, rs: seq<Decl>, x: string) returns (j: nat)
    requires x in Facts(body, ps, rs)
    ensures j < |body| && body[j].name == x && FactOf(body[j].value, ps, rs) == Some(Facts(body, ps, rs)[x])
  {
    var n := |body| - 1;
    if body[n].name == x && FactOf(body[n].value, ps, rs).Some? {
      j := n;
    } else {
      j := FactsWitness(body[..n], ps, rs, x);
    }
  }

  lemma {:induction false} FactsKnown(body: seq<Binding>, ps: seq<Decl>, rs: seq<Decl>, j: nat)
    requires j < |body| && FactOf(body[j].value, ps, rs).Some?
    requires forall k :: j < k < |body| ==> body[k].name != body[j].name
    ensures body[j].name in Facts(body, ps, rs)
    ensures Some(Facts(body, ps, rs)[body[j].name]) == FactOf(body[j].value, ps, rs)
  {
    if j < |body| - 1 {
      FactsKnown(body[..|body| - 1], ps, rs, j);
    }
  }

  lemma {:induction false} ValueOkMono(v: AnfValue, g: map<string, Fact>, g': map<string, Fact>, ps: seq<Decl>, rs: seq<Decl>)
    requires ValueOk(v, g, ps, rs)
    requires forall r :: r in BindingRefs(v) && r in g ==> r in g' && g'[r] == g[r]
    ensures ValueOk(v, g', ps, rs)
  {
    match v
    case ArrayLiteral(es) =>
      forall i | 0 <= i < |es| ensures Is(g', es[i], Bigint) {
        assert Is(g, es[i], Bigint);
      }
    case BinOp(op, l, r) => assert l in BindingRefs(v) && r in BindingRefs(v);
    case UnaryOp(_, x) => assert x in BindingRefs(v);
    case Call(_, args) =>
    case Assert(x) => assert x in BindingRefs(v);
    case UpdateProp(_, x) => assert x in BindingRefs(v);
    case _ =>
  }

  /** A reference of position a resolves after the deletion to the same fact as before. */
  lemma {:induction false} DropKeepsFact(body: seq<Binding>, k: nat, a: nat, r: string, ps: seq<Decl>, rs: seq<Decl>)
    requires k < |body| && a < |body| - 1 && NoRepeats(NamesOf(body))
    requires r in Facts(body[..Index(k, a)], ps, rs) && r in NamesOf(Drop(body, k))
    ensures r in Facts(Drop(body, k)[..a], ps, rs)
    ensures Facts(Drop(body, k)[..a], ps, rs)[r] == Facts(body[..Index(k, a)], ps, rs)[r]
  {
    var body', pre := Drop(body, k), body[..Index(k, a)];
    var j := FactsWitness(pre, ps, rs, r);
    var c :| 0 <= c < |body'| && NamesOf(body')[c] == r;
    assert NamesOf(body)[Index(k, c)] == r == NamesOf(body)[j];
    assert Index(k, c) == j && c < a;
    assert body'[c] == body[j];
    forall m | c < m < a ensures body'[m].name != r {
      assert NamesOf(body)[Index(k, m)] != NamesOf(body)[j];
    }
    FactsKnown(body'[..a], ps, rs, c);
  }

  lemma {:induction false} DropKeepsBodyOk(body: seq<Binding>, k: nat, ps: seq<Decl>, rs: seq<Decl>)
    requires k < |body| && BodyOk(body, ps, rs) && RefsExist(Drop(body, k))
    ensures BodyOk(Drop(body, k), ps, rs)
  {
    var body' := Drop(body, k);
    forall a | 0 <= a < |body'| ensures ValueOk(body'[a].value, Facts(body'[..a], ps, rs), ps, rs) {
      var v, g := body'[a].value, Facts(body[..Index(k, a)], ps, rs);
      assert body'[a] == body[Index(k, a)];
      forall r | r in BindingRefs(v) && r in g
        ensures r in Facts(body'[..a], ps, rs) && Facts(body'[..a], ps, rs)[r] == g[r]
      {
        DropKeepsFact(body, k, a, r, ps, rs);
      }
      ValueOkMono(v, g, Facts(body'[..a], ps, rs), ps, rs);
    }
    forall i, j | 0 <= i < j < |body'| ensures NamesOf(body')[i] != NamesOf(body')[j] {
      assert NamesOf(body)[Index(k, i)] != NamesOf(body)[Index(k, j)];
    }
  }

  ghost predicate MethodOk(m: Method, rs: seq<Decl>) {
    NoRepeats(DeclNames(m.params)) && BodyOk(m.body, m.params, rs)
  }

  lemma {:induction false} ResolvedBody(m: Method, props: seq<string>)
    requires MethodResolves(m, props)
    ensures RefsExist(m.body)
  {
    forall j, r | 0 <= j < |m.body| && r in BindingRefs(m.body[j].value) ensures r in NamesOf(m.body) {
      assert m.body[j] in m.body;
    }
  }

  lemma {:induction false} DropParamKeepsMethod(m: Method, pi: nat, rs: seq<Decl>, props: seq<string>)
    requires pi < |m.params| && MethodOk(m, rs) && MethodResolves(m.(params := Drop(m.params, pi)), props)
    ensures MethodOk(m.(params := Drop(m.params, pi)), rs)
  {
    var ps' := Drop(m.params, pi);
    DropKeepsNoRepeats(m.params, pi);
    forall b | b in m.body ensures SameDecls(b.value, m.params, rs, ps', rs) {
      assert ValueResolves(b.value, NamesOf(m.body), DeclNames(ps'), props);
      if ParamRef(b.value).Some? {
        DeclaredIff(ps', ParamRef(b.value).value);
        DropDeclKeepsType(m.params, pi, ParamRef(b.value).value);
      }
    }
    BodyRedeclared(m.body, m.params, rs, ps', rs);
  }

  lemma {:induction false} DropPropKeepsMethod(m: Method, pi: nat, rs: seq<Decl>)
    requires pi < |rs| && NoRepeats(DeclNames(rs)) && MethodOk(m, rs) && MethodResolves(m, DeclNames(Drop(rs, pi)))
    ensures MethodOk(m, Drop(rs, pi))
  {
    var rs' := Drop(rs, pi);
    forall b | b in m.body ensures SameDecls(b.value, m.params, rs, m.params, rs') {
      assert ValueResolves(b.value, NamesOf(m.body), DeclNames(m.params), DeclNames(rs'));
      if PropRef(b.value).Some? {
        DeclaredIff(rs', PropRef(b.value).value);
        DropDeclKeepsType(rs, pi, PropRef(b.value).value);
      }
    }
    BodyRedeclared(m.body, m.params, rs, m.params, rs');
  }

  /** One kept deletion leaves a typed program typed. */
  lemma {:induction false} DeleteKeepsOk(p: Program, d: Deletion)
    requires ProgramOk(p) && Applies(d, p) && WellFormed(Delete(p, d))
    ensures ProgramOk(Delete(p, d))
  {
    var q := Delete(p, d);
    var rs, rs' := Decls(p.properties), Decls(q.properties);
    if d.DelProperty? {
      assert rs' == Drop(rs, d.pi);
      DropKeepsNoRepeats(rs, d.pi);
    }
    forall m | m in q.methods ensures NoRepeats(DeclNames(m.params)) && BodyOk(m.body, m.params, rs') {
      assert MethodResolves(m, DeclNames(rs'));
      match d {
        case DelBinding(mi, bi) =>
          if m == q.methods[mi] {
            ResolvedBody(m, DeclNames(rs'));
            assert MethodOk(p.methods[mi], rs);
            DropKeepsBodyOk(p.methods[mi].body, bi, m.params, rs);
          } else {
            var i :| 0 <= i < |q.methods| && q.methods[i] == m;
            assert p.methods[i] == m;
          }
        case DelParam(mi, pi) =>
          if m == q.methods[mi] {
            assert MethodOk(p.methods[mi], rs);
            DropParamKeepsMethod(p.methods[mi], pi, rs, DeclNames(rs'));
          } else {
            var i :| 0 <= i < |q.methods| && q.methods[i] == m;
            assert p.methods[i] == m;
          }
        case DelProperty(pi) =>
          DropPropKeepsMethod(m, pi, rs);
        case DelMethod(mi) =>
          var i :| 0 <= i < |q.methods| && q.methods[i] == m;
          assert p.methods[Index(mi, i)] == m;
      }
    }
  }

  /** Reducing a typed program, under any predicate, ends in a typed program. */
  lemma {:induction false} ReductionKeepsOk(trace: seq<Program>, pred: Predicate)
    requires ReductionRun(trace, pred) && ProgramOk(trace[0])
    ensures ProgramOk(trace[|trace| - 1])
  {
    if |trace| > 1 {
      ReductionKeepsOk(trace[..|trace| - 1], pred);
      var p, q := trace[|trace| - 2], trace[|trace| - 1];
      assert IsDeletion(p, q);
      var d :| Applies(d, p) && q == Delete(p, d);
      DeleteKeepsOk(p, d);
    }
  }

  /** So no method of a reduced typed program ever gets stuck. */
  lemma {:induction false} ReducedNeverStuck(trace: seq<Program>, pred: Predicate, m: Method, props: map<string, Val>,
                          params: map<string, Val>, bits: (Operator, int, int) -> int)
    requires ReductionRun(trace, pred) && ProgramOk(trace[0])
    requires m in trace[|trace| - 1].methods
    requires Fits(params, m.params) && Fits(props, Decls(trace[|trace| - 1].properties))
    ensures !Run(m.body, props, params, bits).Stuck?
  {
    ReductionKeepsOk(trace, pred);
    ProgramSound(trace[|trace| - 1], m, props, params, bits);
  }

  // ----- order survives reduction -----

  predicate OrderedProgram(p: Program) {
    forall m :: m in p.methods ==> Ordered(m.body) && NoRepeats(NamesOf(m.body))
  }

  lemma {:induction false} DeleteKeepsOrder(p: Program, d: Deletion)
    requires OrderedProgram(p) && Applies(d, p) && WellFormed(Delete(p, d))
    ensures OrderedProgram(Delete(p, d))
  {
    var q := Delete(p, d);
    forall m | m in q.methods ensures Ordered(m.body) && NoRepeats(NamesOf(m.body)) {
      var i :| 0 <= i < |q.methods| && q.methods[i] == m;
      ResolvedBody(m, DeclNames(Decls(q.properties)));
      match d {
        case DelBinding(mi, bi) =>
          assert p.methods[i] in p.methods;
          if i == mi { DropKeepsOrder(p.methods[mi].body, bi); }
        case DelParam(mi, _) => assert p.methods[i] in p.methods && p.methods[i].body == m.body;
        case DelProperty(_) =>
        case DelMethod(mi) => assert p.methods[Index(mi, i)] == m;
      }
    }
  }

  /** With unique names, existence-only well-formedness keeps definitions before uses over whole reductions. */
  lemma {:induction false} ReductionKeepsOrder(trace: seq<Program>, pred: Predicate)
    requires ReductionRun(trace, pred) && OrderedProgram(trace[0])
    ensures OrderedProgram(trace[|trace| - 1])
  {
    if |trace| > 1 {
      ReductionKeepsOrder(trace[..|trace| - 1], pred);
      var p, q := trace[|trace| - 2], trace[|trace| - 1];
      assert IsDeletion(p, q);
      var d :| Applies(d, p) && q == Delete(p, d);
      DeleteKeepsOrder(p, d);
    }
  }

  // ----- exactly when existence implies order -----

  /** Binding j refers to a name that i defines before it and k defines at j or later. */
  predicate Redefined(body: seq<Binding>, i: nat, j: nat, k: nat) {
    i < j <= k < |body| && body[i].name == body[k].name && body[i].name in BindingRefs(body[j].value)
  }

  predicate NoRedefinition(body: seq<Binding>) {
    forall i, j, k :: 0 <= i < j <= k < |body| ==> !Redefined(body, i, j, k)
  }

  predicate AllOrdered(p: Program) {
    forall m :: m in p.methods ==> Ordered(m.body)
  }

  predicate NothingRedefined(p: Program) {
    forall m :: m in p.methods ==> NoRedefinition(m.body)
  }

  lemma {:induction false} DropKeepsNoRedefinition(body: seq<Binding>, d: nat)
    requires d < |body| && NoRedefinition(body)
    ensures NoRedefinition(Drop(body, d))
  {
    var body' := Drop(body, d);
    forall i, j, k | 0 <= i < j <= k < |body'| ensures !Redefined(body', i, j, k) {
      assert !Redefined(body, Index(d, i), Index(d, j), Index(d, k));
    }
  }

  /** Without redefinitions, a reference that was ordered and still resolves is still ordered. */
  lemma {:induction false} DropKeepsOrdered(body: seq<Binding>, d: nat)
    requires d < |body| && NoRedefinition(body) && Ordered(body) && RefsExist(Drop(body, d))
    ensures Ordered(Drop(body, d))
  {
    var body' := Drop(body, d);
    forall a, r | 0 <= a < |body'| && r in BindingRefs(body'[a].value) ensures r in NamesOf(body'[..a]) {
      var j := Index(d, a);
      var b :| 0 <= b < j && NamesOf(body[..j])[b] == r;
      assert r in NamesOf(body');
      var c :| 0 <= c < |body'| && NamesOf(body')[c] == r;
      var k := Index(d, c);
      assert !Redefined(body, b, j, if k < j then j else k);
      assert c < a;
      assert NamesOf(body'[..a])[c] == r;
    }
  }

  lemma {:induction false} DeleteKeepsOrdered(p: Program, d: Deletion)
    requires AllOrdered(p) && NothingRedefined(p) && Applies(d, p) && WellFormed(Delete(p, d))
    ensures AllOrdered(Delete(p, d)) && NothingRedefined(Delete(p, d))
  {
    var q := Delete(p, d);
    forall m | m in q.methods ensures Ordered(m.body) && NoRedefinition(m.body) {
      var i :| 0 <= i < |q.methods| && q.methods[i] == m;
      ResolvedBody(m, DeclNames(Decls(q.properties)));
      match d {
        case DelBinding(mi, bi) =>
          assert p.methods[i] in p.methods;
          if i == mi {
            DropKeepsOrdered(p.methods[mi].body, bi);
            DropKeepsNoRedefinition(p.methods[mi].body, bi);
          }
        case DelParam(mi, _) => assert p.methods[i] in p.methods && p.methods[i].body == m.body;
        case DelProperty(_) =>
        case DelMethod(mi) => assert p.methods[Index(mi, i)] == m;
      }
    }
  }

  lemma {:induction false} RunKeepsOrdered(trace: seq<Program>, pred: Predicate)
    requires ReductionRun(trace, pred) && AllOrdered(trace[0]) && NothingRedefined(trace[0])
    ensures AllOrdered(trace[|trace| - 1]) && NothingRedefined(trace[|trace| - 1])
  {
    hide AllOrdered, NothingRedefined;
    if |trace| > 1 {
      RunKeepsOrdered(trace[..|trace| - 1], pred);
      var p, q := trace[|trace| - 2], trace[|trace| - 1];
      assert IsDeletion(p, q);
      var d :| Applies(d, p) && q == Delete(p, d);
      DeleteKeepsOrdered(p, d);
    }
  }

  lemma {:induction false} ReducesFurther(p: Program, q: Program, r: Program, pred: Predicate)
    requires ReducesTo(p, q, pred) && IsDeletion(q, r) && WellFormed(r) && Interesting(pred, r)
    ensures ReducesTo(p, r, pred)
  {
    hide WellFormed, Interesting, IsDeletion, ReductionRun;
    var trace :| |trace| > 0 && ReductionRun(trace, pred) && trace[0] == p && trace[|trace| - 1] == q;
    ExtendRun(trace, r, pred);
    assert (trace + [r])[|trace|] == r;
  }

  lemma {:induction false} DropDuplicateResolves(method': Method, m: nat, k: nat, props: seq<string>)
    requires MethodResolves(method', props) && m < |method'.body| && k < |method'.body| && m != k
    requires method'.body[m].name == method'.body[k].name
    ensures MethodResolves(method'.(body := Drop(method'.body, m)), props)
  {
    hide NamesOf;
    var body, body' := method'.body, Drop(method'.body, m);
    forall b | b in body' ensures ValueResolves(b.value, NamesOf(body'), DeclNames(method'.params), props) {
      var a :| 0 <= a < |body'| && body'[a] == b;
      assert body[Index(m, a)] == b && b in body;
      forall r | r in BindingRefs(b.value) ensures r in NamesOf(body') {
        DropDuplicateNames(body, m, k, r);
      }
    }
  }

  /** Deleting one of two bindings of a name leaves every reference resolved. */
  lemma {:induction false} DeleteDuplicate(p: Program, mi: nat, m: nat, k: nat)
    requires WellFormed(p) && mi < |p.methods| && m < |p.methods[mi].body| && k < |p.methods[mi].body| && m != k
    requires p.methods[mi].body[m].name == p.methods[mi].body[k].name
    ensures WellFormed(Delete(p, DelBinding(mi, m)))
  {
    hide MethodResolves, Drop;
    var q, props := Delete(p, DelBinding(mi, m)), DeclNames(Decls(p.properties));
    assert p.methods[mi] in p.methods;
    DropDuplicateResolves(p.methods[mi], m, k, props);
    forall x | x in q.methods ensures MethodResolves(x, props) {
      var i :| 0 <= i < |q.methods| && q.methods[i] == x;
      if i != mi {
        assert p.methods[i] in p.methods;
      }
    }
  }

  /** Every predicate that keeps everything. */
  const KEEP_ALL: Predicate := (p: Program) => Some(true)

  lemma {:induction false} DeleteDuplicateStep(p: Program, q: Program, mi: nat, m: nat, k: nat) returns (r: Program)
    requires ReducesTo(p, q, KEEP_ALL) && WellFormed(q) && mi < |q.methods|
    requires var body := q.methods[mi].body;
             m < |body| && k < |body| && m != k && body[m].name == body[k].name
    ensures ReducesTo(p, r, KEEP_ALL) && WellFormed(r) && mi < |r.methods|
    ensures r.methods[mi].body == Drop(q.methods[mi].body, m)
  {
    hide ReducesTo, WellFormed;
    var d := DelBinding(mi, m);
    DeleteDuplicate(q, mi, m, k);
    r := Delete(q, d);
    assert Applies(d, q) && IsDeletion(q, r);
    assert Interesting(KEEP_ALL, r);
    ReducesFurther(p, q, r, KEEP_ALL);
  }

  /** Deleting another earlier definition of the name leaves the redefinition in place. */
  lemma {:induction false} DropKeepsRedefined(body: seq<Binding>, i: nat, j: nat, k: nat, m: nat)
    requires Redefined(body, i, j, k) && m < j && m != i && body[m].name == body[i].name
    ensures Redefined(Drop(body, m), if i < m then i else i - 1, j - 1, k - 1)
  {
  }

  /** A redefinition is brought out of order by deleting the other earlier definitions of its name, and
      then the last one. */
  lemma {:induction false} RedefinitionBreaks(p: Program, q: Program, mi: nat, i: nat, j: nat, k: nat) returns (r: Program)
    requires ReducesTo(p, q, KEEP_ALL) && WellFormed(q) && mi < |q.methods|
    requires Redefined(q.methods[mi].body, i, j, k)
    ensures ReducesTo(p, r, KEEP_ALL) && !AllOrdered(r)
    decreases j
  {
    var body := q.methods[mi].body;
    assert i < j <= k < |body| && body[i].name == body[k].name && body[i].name in BindingRefs(body[j].value);
    hide *;
    if m :| 0 <= m < j && m != i && body[m].name == body[i].name {
      r := DeleteDuplicateStep(p, q, mi, m, k);
      DropKeepsRedefined(body, i, j, k, m);
      r := RedefinitionBreaks(p, r, mi, if i < m then i else i - 1, j - 1, k - 1);
    } else {
      r := DeleteDuplicateStep(p, q, mi, i, k);
      LastDefinitionGone(body, i, j);
      NotAllOrdered(r, mi);
    }
  }

  lemma {:induction false} NotAllOrdered(p: Program, mi: nat)
    requires mi < |p.methods| && !Ordered(p.methods[mi].body)
    ensures !AllOrdered(p)
  {
    hide Ordered;
    assert p.methods[mi] in p.methods;
  }

  /** Every reduction of p, under every predicate, ends with definitions before uses. */
  ghost predicate ReductionsStayOrdered(p: Program) {
    forall q, pred :: ReducesTo(p, q, pred) ==> AllOrdered(q)
  }

  /** Existence implies order, over all reductions of an ordered and well-formed program, exactly when no
      method refers to a name that is defined before the reference and again at it or later. */
  lemma {:induction false} ReductionsStayOrderedIff(p: Program)
    requires AllOrdered(p) && WellFormed(p)
    ensures ReductionsStayOrdered(p) <==> NothingRedefined(p)
  {
    hide AllOrdered, WellFormed, ReductionRun;
    if NothingRedefined(p) {
      forall q, pred | ReducesTo(p, q, pred) ensures AllOrdered(q) {
        var trace :| |trace| > 0 && ReductionRun(trace, pred) && trace[0] == p && trace[|trace| - 1] == q;
        RunKeepsOrdered(trace, pred);
      }
    } else {
      var m :| m in p.methods && !NoRedefinition(m.body);
      var mi :| 0 <= mi < |p.methods| && p.methods[mi] == m;
      var i, j, k :| 0 <= i < j <= k < |m.body| && Redefined(m.body, i, j, k);
      OneStep(p, KEEP_ALL);
      assert |[p]| > 0 && [p][0] == p;
      assert ReducesTo(p, p, KEEP_ALL);
      var q := RedefinitionBreaks(p, p, mi, i, j, k);
    }
  }

  // ----- and of what the reducer returns -----

  lemma {:induction false} RunStep(trace: seq<Program>, pred: Predicate, i: nat)
    requires ReductionRun(trace, pred) && i + 1 < |trace|
    ensures IsDeletion(trace[i], trace[i + 1]) && WellFormed(trace[i + 1])
  {
    hide Interesting, IsDeletion, WellFormed;
    var n := |trace| - 1;
    if i + 1 < n {
      RunStep(trace[..n], pred, i);
      assert trace[..n][i] == trace[i] && trace[..n][i + 1] == trace[i + 1];
    }
  }

  /** The predicate that finds exactly the programs of a run interesting. */
  function OnlyIn(trace: seq<Program>): Predicate {
    (p: Program) => Some(p in trace)
  }

  /** What the reducer computes is the end of a run, and locally minimal. */
  lemma {:induction false} ReducedIsRun(p: Program, q: Program, pred: Predicate)
    requires ReducesTo(p, q, pred)
    ensures ReducesTo(p, Reduced(q, pred), pred) && LocallyMinimal(Reduced(q, pred), pred)
    decreases Size(q)
  {
    hide ReducesTo, Helps, FirstHelp, Delete, Size, WellFormed, IsDeletion, Interesting, Reduced, Before;
    if d :| Applies(d, q) && FirstHelp(q, d, pred) {
      FirstIsKept(q, d, pred);
      ReducesFurther(p, q, Delete(q, d), pred);
      ReducedIsRun(p, Delete(q, d), pred);
    } else {
      forall d ensures !Helps(q, d, pred) {
        if Helps(q, d, pred) {
          FirstExists(q, d, pred);
          FirstApplies(q, pred);
        }
      }
      ReducedStops(q, pred);
    }
  }

  lemma FirstApplies(p: Program, pred: Predicate)
    ensures forall d :: FirstHelp(p, d, pred) ==> Applies(d, p)
  {
    hide Before, Interesting, WellFormed, Delete, Applies;
  }

  lemma {:induction false} ResultReached(p: Program, pred: Predicate)
    ensures ReducesTo(p, ResultOf(p, pred), pred)
    ensures Interesting(pred, p) ==> LocallyMinimal(ResultOf(p, pred), pred)
  {
    OneStep(p, pred);
    assert |[p]| > 0 && [p][0] == p;
    assert ReducesTo(p, p, pred);
    hide ReducesTo;
    ReducedIsRun(p, p, pred);
  }

  /** Under it the reducer returns the end of the run. */
  lemma {:induction false} OnlyTheEnd(trace: seq<Program>, pred: Predicate)
    requires ReductionRun(trace, pred)
    ensures Interesting(OnlyIn(trace), trace[0]) && ResultOf(trace[0], OnlyIn(trace)) == trace[|trace| - 1]
  {
    var p, only := trace[0], OnlyIn(trace);
    assert forall q :: Interesting(only, q) <==> q in trace;
    hide OnlyIn, Interesting, WellFormed, ReductionRun;
    var r := ResultOf(p, only);
    ResultReached(p, only);
    KeptOrStart(p, r, only);
    var i :| 0 <= i < |trace| && trace[i] == r;
    if i < |trace| - 1 {
      RunStep(trace, pred, i);
      NotMinimal(trace[i], trace[i + 1], only);
    }
  }

  lemma NotMinimal(p: Program, q: Program, pred: Predicate)
    requires IsDeletion(p, q) && WellFormed(q) && Interesting(pred, q)
    ensures !LocallyMinimal(p, pred)
  {
    var d :| Applies(d, p) && q == Delete(p, d);
    assert Helps(p, d, pred);
  }

  lemma {:induction false} KeptOrStart(p: Program, r: Program, pred: Predicate)
    requires ReducesTo(p, r, pred)
    ensures r == p || Interesting(pred, r)
  {
    var trace :| |trace| > 0 && ReductionRun(trace, pred) && trace[0] == p && trace[|trace| - 1] == r;
  }

  /** What the reducer returns for an ordered and well-formed program is ordered, under every predicate,
      exactly when nothing is redefined. */
  lemma {:induction false} ResultsStayOrderedIff(p: Program)
    requires AllOrdered(p) && WellFormed(p)
    ensures (forall pred :: AllOrdered(ResultOf(p, pred))) <==> NothingRedefined(p)
  {
    ReductionsStayOrderedIff(p);
    hide AllOrdered, WellFormed, ReductionRun, NothingRedefined, ResultOf;
    if ReductionsStayOrdered(p) {
      forall pred ensures AllOrdered(ResultOf(p, pred)) {
        ResultReached(p, pred);
      }
    } else {
      var q, pred :| ReducesTo(p, q, pred) && !AllOrdered(q);
      var trace :| |trace| > 0 && ReductionRun(trace, pred) && trace[0] == p && trace[|trace| - 1] == q;
      OnlyTheEnd(trace, pred);
    }
  }

  // ----- typed programs resolve -----

  lemma {:induction false} RefsKnown(v: AnfValue, g: map<string, Fact>, ps: seq<Decl>, rs: seq<Decl>, r: string)
    requires ValueOk(v, g, ps, rs) && r in BindingRefs(v)
    ensures r in g
  {
    if v.ArrayLiteral? {
      var i :| 0 <= i < |v.elements| && v.elements[i] == r;
      assert Is(g, v.elements[i], Bigint);
    }
  }

  lemma {:induction false} OkIsOrdered(body: seq<Binding>, ps: seq<Decl>, rs: seq<Decl>)
    requires BodyOk(body, ps, rs)
    ensures Ordered(body)
  {
    forall j, r | 0 <= j < |body| && r in BindingRefs(body[j].value) ensures r in NamesOf(body[..j]) {
      RefsKnown(body[j].value, Facts(body[..j], ps, rs), ps, rs, r);
      var i := FactsWitness(body[..j], ps, rs, r);
      assert NamesOf(body[..j])[i] == r;
    }
  }

  /** A typed program has its definitions before its uses and passes the reducer's existence check. */
  lemma {:induction false} OkResolves(p: Program)
    requires ProgramOk(p)
    ensures OrderedProgram(p) && WellFormed(p)
  {
    var rs := Decls(p.properties);
    forall m | m in p.methods ensures Ordered(m.body) && MethodResolves(m, DeclNames(rs)) {
      OkIsOrdered(m.body, m.params, rs);
      forall b | b in m.body ensures ValueResolves(b.value, NamesOf(m.body), DeclNames(m.params), DeclNames(rs)) {
        var j :| 0 <= j < |m.body| && m.body[j] == b;
        assert ValueOk(b.value, Facts(m.body[..j], m.params, rs), m.params, rs);
        forall r | r in BindingRefs(b.value) ensures r in NamesOf(m.body) {
          assert r in NamesOf(m.body[..j]);
          var i :| 0 <= i < j && NamesOf(m.body[..j])[i] == r;
          assert NamesOf(m.body)[i] == r;
        }
        if ParamRef(b.value).Some? { DeclaredIff(m.params, ParamRef(b.value).value); }
        if PropRef(b.value).Some? { DeclaredIff(rs, PropRef(b.value).value); }
      }
    }
  }
}

/** Generator and reducer together. */
module AnfFuzzing {
  import opened Anf
  import opened AnfGenerator
  import opened AnfReducer

  /** A generated program, reduced under any predicate, still resolves, keeps definitions before uses,
      and never gets stuck. */
  lemma {:induction false} ReducedFindingsRun(p: Program, opts: GenOpts, trace: seq<Program>, pred: Predicate)
    requires GeneratedProgram(p, opts) && ReductionRun(trace, pred) && trace[0] == p
    ensures var r := trace[|trace| - 1];
            && WellFormed(r) && OrderedProgram(r)
            && forall m, props, params, bits :: m in r.methods && Fits(params, m.params) && Fits(props, Decls(r.properties)) ==>
                 !Run(m.body, props, params, bits).Stuck?
  {
    var r := trace[|trace| - 1];
    GeneratedIsOk(p, opts);
    ReductionKeepsOk(trace, pred);
    OkResolves(r);
    forall m, props, params, bits | m in r.methods && Fits(params, m.params) && Fits(props, Decls(r.properties))
      ensures !Run(m.body, props, params, bits).Stuck?
    {
      ProgramSound(r, m, props, params, bits);
    }
  }
}
