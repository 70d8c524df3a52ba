/** Canonical IR trees: which JSON trees the conformance runner treats as the same. */
module CanonJson {
  import opened Wrappers
  import opened Text

  /** A parsed JSON text. Number tokens of digits only keep their exact integer; any other token has
      the double it denotes, or overflows to an infinity of either sign. Members are in text order, duplicates included. */
  datatype Json =
    | Null
    | Bool(b: bool)
    | IntNum(z: int)
    | DblNum(x: real)
    | HugeNum(negative: bool)
    | Str(s: string)
    | Arr(items: seq<Json>)
    | Obj(members: seq<Member>)

  datatype Member = Member(key: string, value: Json)

  /** What is compared: doubles, texts, lists, and objects with their members in enumeration order. */
  datatype Canon =
    | CNull
    | CBool(b: bool)
    | CNum(x: real)
    | CText(s: string)
    | CArr(items: seq<Canon>)
    | CObj(entries: seq<Entry>)

  datatype Entry = Entry(key: string, value: Canon)

  const MAX_SAFE: int := 9007199254740991

  // ----- integers and their spellings -----

  predicate Safe(z: int) {
    -MAX_SAFE <= z <= MAX_SAFE
  }

  function SignedDecimal(z: int): string {
    if z < 0 then "-" + Decimal(-z) else Decimal(z)
  }

  function BigintSpelling(z: int): string {
    SignedDecimal(z) + "n"
  }

  function Unsigned(s: string): string {
    if s != "" && s[0] == '-' then s[1..] else s
  }

  /** An optional minus, digits, and an `n`. */
  predicate IsBigintText(s: string) {
    s != "" && s[|s| - 1] == 'n' && Unsigned(s[..|s| - 1]) != "" && AllDigits(Unsigned(s[..|s| - 1]))
  }

  function BigintValue(s: string): int
    requires IsBigintText(s)
  {
    var digits := s[..|s| - 1];
    if digits[0] == '-' then -(DecimalValue(Unsigned(digits)) as int) else DecimalValue(digits)
  }

  lemma SpellingMeans(z: int)
    ensures IsBigintText(BigintSpelling(z)) && BigintValue(BigintSpelling(z)) == z
  {
    hide Decimal, DecimalValue;
    var s := BigintSpelling(z);
    assert s[..|s| - 1] == SignedDecimal(z);
    if z < 0 {
      DecimalRoundTrip(-z);
      assert SignedDecimal(z)[1..] == Decimal(-z);
    } else {
      DecimalRoundTrip(z);
      assert IsDigit(Decimal(z)[0]);
    }
  }

  /** The reviver's common form of an integer. */
  function ReviveInt(z: int): Canon {
    if Safe(z) then CNum(z as real) else CText(BigintSpelling(z))
  }

  /** Distinct integers never share a form, on either side of 2^53 - 1. */
  lemma IntegersNeverCollide(m: int, n: int)
    ensures ReviveInt(m) == ReviveInt(n) <==> m == n
  {
    SpellingMeans(m);
    SpellingMeans(n);
  }

  /** A bare number token and the `n`-suffixed string of the same integer have one form. */
  lemma {:induction false} SpellingsAgree(z: int)
    ensures CanonOf(Str(BigintSpelling(z))) == CanonOf(IntNum(z))
  {
    SpellingMeans(z);
  }

  /** The form of an integer: a number up to 2^53 - 1, its digits and an `n` beyond. */
  lemma {:induction false} FormOfInteger(z: int)
    ensures CanonOf(IntNum(z)) ==
            if -9007199254740991 <= z <= 9007199254740991 then CNum(z as real)
            else CText((if z < 0 then "-" + Decimal(-z) else Decimal(z)) + "n")
  {
  }

  /** Digits, leading zeros allowed, and an `n`, perhaps with a minus in front, are taken for the integer. */
  lemma {:induction false} BigintReads(d: string)
    requires d != "" && AllDigits(d)
    ensures IsBigintText(d + "n") && BigintValue(d + "n") == DecimalValue(d)
    ensures IsBigintText("-" + d + "n") && BigintValue("-" + d + "n") == -(DecimalValue(d) as int)
  {
    hide DecimalValue;
    var plain, minus := d + "n", "-" + d + "n";
    assert plain[..|plain| - 1] == d && minus[..|minus| - 1] == "-" + d && ("-" + d)[1..] == d;
    assert IsDigit(d[0]);
  }

  /** No other string is. */
  lemma {:induction false} BigintTexts(s: string)
    ensures IsBigintText(s) <==> exists d: string :: d != "" && AllDigits(d) && (s == d + "n" || s == "-" + d + "n")
  {
    if IsBigintText(s) {
      var digits := s[..|s| - 1];
      var d := Unsigned(digits);
      assert s == digits + "n" && (digits == d || digits == "-" + d);
      hide AllDigits, IsBigintText, Unsigned;
      assert d != "" && AllDigits(d) && (s == d + "n" || s == "-" + d + "n");
    }
    if exists d: string :: d != "" && AllDigits(d) && (s == d + "n" || s == "-" + d + "n") {
      var d: string :| d != "" && AllDigits(d) && (s == d + "n" || s == "-" + d + "n");
      BigintReads(d);
    }
  }

  // ----- key order -----

  /** The canonical spelling of an array index; objects enumerate such keys first, by value. */
  predicate IsIndex(k: string) {
    k != "" && AllDigits(k) && DecimalValue(k) < 0xFFFF_FFFF && k == Decimal(DecimalValue(k))
  }

  predicate LexLess(a: string, b: string) {
    b != "" && (a == "" || a[0] < b[0] || (a[0] == b[0] && LexLess(a[1..], b[1..])))
  }

  predicate KeyLess(a: string, b: string) {
    if IsIndex(a) && IsIndex(b) then DecimalValue(a) < DecimalValue(b)
    else if IsIndex(a) != IsIndex(b) then IsIndex(a)
    else LexLess(a, b)
  }

  lemma {:induction false} LexTotal(a: string, b: string)
    ensures a == b || LexLess(a, b) || LexLess(b, a)
    ensures !(LexLess(a, b) && LexLess(b, a)) && !(a == b && LexLess(a, b))
  {
    if a != "" && b != "" && a[0] == b[0] {
      LexTotal(a[1..], b[1..]);
      assert a == [a[0]] + a[1..] && b == [b[0]] + b[1..];
    }
  }

  lemma {:induction false} LexTransitive(a: string, b: string, c: string)
    requires LexLess(a, b) && LexLess(b, c)
    ensures LexLess(a, c)
  {
    if a != "" && a[0] == b[0] == c[0] {
      LexTransitive(a[1..], b[1..], c[1..]);
    }
  }

  /** Indices come first, by value; of two other keys a proper prefix comes first, or the key with the smaller
      character where they first differ. */
  lemma {:induction false} KeyOrder(a: string, b: string)
    ensures IsIndex(a) && IsIndex(b) ==> (KeyLess(a, b) <==> DecimalValue(a) < DecimalValue(b))
    ensures IsIndex(a) && !IsIndex(b) ==> KeyLess(a, b) && !KeyLess(b, a)
    ensures !IsIndex(a) && !IsIndex(b) ==> (KeyLess(a, b) <==> a < b || DiffersBelow(a, b))
  {
    hide IsIndex, DecimalValue;
    LexFirst(a, b);
  }

  predicate DiffersBelow(a: string, b: string) {
    exists k :: 0 <= k < |a| && k < |b| && a[..k] == b[..k] && a[k] < b[k]
  }

  lemma {:induction false} LexFirst(a: string, b: string)
    ensures LexLess(a, b) <==> a < b || DiffersBelow(a, b)
  {
    if a != "" && b != "" && a[0] == b[0] {
      LexFirst(a[1..], b[1..]);
      if DiffersBelow(a, b) {
        var k :| 0 <= k < |a| && k < |b| && a[..k] == b[..k] && a[k] < b[k];
        assert a[1..][..k - 1] == a[..k][1..] && b[1..][..k - 1] == b[..k][1..];
      }
      if DiffersBelow(a[1..], b[1..]) {
        var k :| 0 <= k < |a| - 1 && k < |b| - 1 && a[1..][..k] == b[1..][..k] && a[1..][k] < b[1..][k];
        assert a[..k + 1] == [a[0]] + a[1..][..k] && b[..k + 1] == [b[0]] + b[1..][..k];
      }
      assert a < b <==> a[1..] < b[1..] by {
        assert a == [a[0]] + a[1..] && b == [b[0]] + b[1..];
      }
    } else if a != "" && b != "" {
      assert a[..0] == b[..0];
    }
  }

  lemma KeysTotal(a: string, b: string)
    ensures a == b || KeyLess(a, b) || KeyLess(b, a)
    ensures !(KeyLess(a, b) && KeyLess(b, a)) && !(a == b && KeyLess(a, b))
  {
    LexTotal(a, b);
  }

  lemma KeysTransitive(a: string, b: string, c: string)
    requires KeyLess(a, b) && KeyLess(b, c)
    ensures KeyLess(a, c)
  {
    if LexLess(a, b) && LexLess(b, c) {
      LexTransitive(a, b, c);
    }
  }

  // ----- canonicalising -----

  /** `sourceLoc` is skipped; assigning `__proto__` sets a prototype instead of a member. */
  predicate Dropped(k: string) {
    k == "sourceLoc" || k == "__proto__"
  }

  /** A member takes its place among the others; a repeated key replaces the earlier value. */
  function Put(es: seq<Entry>, k: string, v: Canon): seq<Entry> {
    if es == [] then [Entry(k, v)]
    else if k == es[0].key then [Entry(k, v)] + es[1..]
    else if KeyLess(k, es[0].key) then [Entry(k, v)] + es
    else [es[0]] + Put(es[1..], k, v)
  }

  function CanonOf(j: Json): Canon
    decreases j, 0
  {
    match j
    case Null => CNull
    case Bool(b) => CBool(b)
    case IntNum(z) => ReviveInt(z)
    case DblNum(x) => CNum(x)
    case HugeNum(_) => CNull
    case Str(s) => if IsBigintText(s) then ReviveInt(BigintValue(s)) else CText(s)
    case Arr(items) => CArr(CanonItems(items))
    case Obj(members) => CObj(CanonMembers(members))
  }

  function CanonItems(items: seq<Json>): (r: seq<Canon>)
    ensures |r| == |items|
    decreases items, 0
  {
    if items == [] then [] else CanonItems(items[..|items| - 1]) + [CanonOf(items[|items| - 1])]
  }

  function CanonMembers(members: seq<Member>): seq<Entry>
    decreases members, 0
  {
    if members == [] then []
    else
      var front, last := CanonMembers(members[..|members| - 1]), members[|members| - 1];
      if Dropped(last.key) then front else Put(front, last.key, CanonOf(last.value))
  }

  method Canonicalize(j: Json) returns (c: Canon)
    ensures c == CanonOf(j)
    decreases j
  {
    match j
    case Null => c := CNull;
    case HugeNum(_) => c := CNull;
    case Bool(b) => c := CBool(b);
    case IntNum(z) => c := ReviveInt(z);
    case DblNum(x) => c := CNum(x);
    case Str(s) => c := if IsBigintText(s) then ReviveInt(BigintValue(s)) else CText(s);
    case Arr(items) =>
      var out: seq<Canon> := [];
      for i := 0 to |items|
        invariant out == CanonItems(items[..i])
      {
        var item := Canonicalize(items[i]);
        assert items[..i + 1][..i] == items[..i];
        out := out + [item];
      }
      assert items[..|items|] == items;
      c := CArr(out);
    case Obj(members) =>
      var sorted: seq<Entry> := [];
      for i := 0 to |members|
        invariant sorted == CanonMembers(members[..i])
      {
        assert members[..i + 1][..i] == members[..i];
        if !Dropped(members[i].key) {
          var value := Canonicalize(members[i].value);
          sorted := Put(sorted, members[i].key, value);
        }
      }
      assert members[..|members|] == members;
      c := CObj(sorted);
  }

  // ----- what a tree means -----

  /** Integers by value however spelled, other numbers as doubles or infinities, objects as maps. */
  datatype Meaning =
    | MNull
    | MInfinite(negative: bool)
    | MBool(b: bool)
    | MInt(z: int)
    | MDouble(x: real)
    | MText(s: string)
    | MList(items: seq<Meaning>)
    | MMap(fields: map<string, Meaning>)

  predicate SafeInteger(x: real) {
    x == x.Floor as real && Safe(x.Floor)
  }

  predicate LongInteger(x: real) {
    x == x.Floor as real && !Safe(x.Floor)
  }

  /** How to read a tree. Canonicalising takes infinities for null, ignores members named `__proto__`, and keeps
      an integer beyond 2^53 - 1 that is spelled with an exponent or a fraction apart from its digits. Its
      documentation promises none of the three. */
  datatype Reading = Reading(infiniteIsNull: bool, protoIgnored: bool, longApart: bool)

  const AS_CODED := Reading(true, true, true)
  const AS_DOCUMENTED := Reading(false, false, false)

  /** What a tree means under a reading. Source locations never count. */
  function Denote(j: Json, rd: Reading): Meaning
    decreases j, 0
  {
    match j
    case Null => MNull
    case Bool(b) => MBool(b)
    case IntNum(z) => MInt(z)
    case DblNum(x) => if SafeInteger(x) || (LongInteger(x) && !rd.longApart) then MInt(x.Floor) else MDouble(x)
    case HugeNum(negative) => if rd.infiniteIsNull then MNull else MInfinite(negative)
    case Str(s) => if IsBigintText(s) then MInt(BigintValue(s)) else MText(s)
    case Arr(items) => MList(DenoteItems(items, rd))
    case Obj(members) => MMap(DenoteMembers(members, rd))
  }

  function DenoteItems(items: seq<Json>, rd: Reading): (r: seq<Meaning>)
    ensures |r| == |items|
    decreases items, 0
  {
    if items == [] then [] else DenoteItems(items[..|items| - 1], rd) + [Denote(items[|items| - 1], rd)]
  }

  function DenoteMembers(members: seq<Member>, rd: Reading): map<string, Meaning>
    decreases members, 0
  {
    if members == [] then map[]
    else
      var front, last := DenoteMembers(members[..|members| - 1], rd), members[|members| - 1];
      if Ignored(last.key, rd) then front else front[last.key := Denote(last.value, rd)]
  }

  predicate Ignored(k: string, rd: Reading) {
    k == "sourceLoc" || (k == "__proto__" && rd.protoIgnored)
  }

  // ----- members by key -----

  /** The last member with a key, unless the key is dropped. */
  function Lookup(members: seq<Member>, k: string): (r: Option<Json>)
    ensures r.Some? ==> exists i :: 0 <= i < |members| && r.value == members[i].value
  {
    if members == [] || Dropped(k) then None
    else
      var n := |members| - 1;
      if members[n].key == k then Some(members[n].value) else Lookup(members[..n], k)
  }

  function Find(es: seq<Entry>, k: string): Option<Canon> {
    if es == [] then None else if es[0].key == k then Some(es[0].value) else Find(es[1..], k)
  }

  lemma {:induction false} PutFind(es: seq<Entry>, k: string, v: Canon, x: string)
    ensures Find(Put(es, k, v), x) == if x == k then Some(v) else Find(es, x)
  {
    if es != [] {
      PutFind(es[1..], k, v, x);
    }
  }

  predicate Ascending(es: seq<Entry>) {
    forall i, j :: 0 <= i < j < |es| ==> KeyLess(es[i].key, es[j].key)
  }

  lemma AscendingCons(e: Entry, es: seq<Entry>)
    requires Ascending(es) && forall x :: x in es ==> KeyLess(e.key, x.key)
    ensures Ascending([e] + es)
  {
  }

  lemma AscendingTail(es: seq<Entry>)
    requires es != [] && Ascending(es)
    ensures Ascending(es[1..]) && forall x :: x in es[1..] ==> KeyLess(es[0].key, x.key)
  {
  }

  lemma {:induction false} PutMembers(es: seq<Entry>, k: string, v: Canon)
    ensures forall x :: x in Put(es, k, v) ==> x == Entry(k, v) || x in es
  {
    if es != [] {
      PutMembers(es[1..], k, v);
    }
  }

  lemma {:induction false} PutAscending(es: seq<Entry>, k: string, v: Canon)
    requires Ascending(es)
    ensures Ascending(Put(es, k, v))
  {
    hide KeyLess;
    if es == [] {
    } else {
      AscendingTail(es);
      if k == es[0].key {
        AscendingCons(Entry(k, v), es[1..]);
      } else if KeyLess(k, es[0].key) {
        forall x | x in es ensures KeyLess(k, x.key) {
          if x != es[0] {
            assert x in es[1..];
            KeysTransitive(k, es[0].key, x.key);
          }
        }
        AscendingCons(Entry(k, v), es);
      } else {
        KeysTotal(k, es[0].key);
        PutAscending(es[1..], k, v);
        PutMembers(es[1..], k, v);
        AscendingCons(es[0], Put(es[1..], k, v));
      }
    }
  }

  lemma {:induction false} MembersAscending(members: seq<Member>)
    ensures Ascending(CanonMembers(members))
  {
    if members != [] {
      var n := |members| - 1;
      MembersAscending(members[..n]);
      if !Dropped(members[n].key) {
        PutAscending(CanonMembers(members[..n]), members[n].key, CanonOf(members[n].value));
      }
    }
  }

  /** The canonical form of a looked-up member, if there is one. */
  function CanonFound(j: Option<Json>): Option<Canon> {
    if j.None? then None else Some(CanonOf(j.value))
  }

  lemma {:induction false} MembersFind(members: seq<Member>, k: string)
    ensures Find(CanonMembers(members), k) == CanonFound(Lookup(members, k))
  {
    hide CanonOf, Put, Dropped;
    if members != [] {
      var n := |members| - 1;
      MembersFind(members[..n], k);
      if !Dropped(members[n].key) {
        PutFind(CanonMembers(members[..n]), members[n].key, CanonOf(members[n].value), k);
      }
    }
  }

  predicate HasProto(members: seq<Member>) {
    exists i :: 0 <= i < |members| && members[i].key == "__proto__"
  }

  lemma {:induction false} MembersDenote(members: seq<Member>, k: string, rd: Reading)
    requires k != "__proto__" || rd.protoIgnored
    ensures k in DenoteMembers(members, rd) <==> Lookup(members, k).Some?
    ensures k in DenoteMembers(members, rd) ==> DenoteMembers(members, rd)[k] == Denote(Lookup(members, k).value, rd)
  {
    hide Denote;
    if members != [] {
      MembersDenote(members[..|members| - 1], k, rd);
    }
  }

  lemma {:induction false} ProtoDenote(members: seq<Member>, rd: Reading)
    requires !rd.protoIgnored
    ensures "__proto__" in DenoteMembers(members, rd) <==> HasProto(members)
  {
    hide Denote;
    if members != [] {
      ProtoDenote(members[..|members| - 1], rd);
      assert "__proto__"[0] != "sourceLoc"[0];
    }
  }

  lemma {:induction false} FindMember(es: seq<Entry>, k: string)
    ensures Find(es, k).Some? <==> exists x :: x in es && x.key == k
  {
    if es != [] {
      FindMember(es[1..], k);
      assert es == [es[0]] + es[1..];
    }
  }

  lemma OwnFirstKey(es: seq<Entry>)
    ensures es != [] ==> Find(es, es[0].key).Some?
  {
  }

  /** Entries in strictly ascending order are determined by what each key is mapped to. */
  lemma {:induction false} SortedUnique(a: seq<Entry>, b: seq<Entry>)
    requires Ascending(a) && Ascending(b) && forall k :: Find(a, k) == Find(b, k)
    ensures a == b
  {
    OwnFirstKey(b);
    if a != [] {
      var k := a[0].key;
      assert Find(a, k) == Find(b, k);
      FirstKeys(a, b);
      AscendingTail(a);
      AscendingTail(b);
      forall x ensures Find(a[1..], x) == Find(b[1..], x) {
        assert Find(a, x) == Find(b, x);
        FindMember(a[1..], x);
        FindMember(b[1..], x);
        KeysTotal(k, k);
      }
      SortedUnique(a[1..], b[1..]);
      assert a == [a[0]] + a[1..] && b == [b[0]] + b[1..];
    }
  }

  lemma FirstKeys(a: seq<Entry>, b: seq<Entry>)
    requires Ascending(a) && Ascending(b) && a != []
    requires Find(a, a[0].key) == Find(b, a[0].key)
    requires forall k :: Find(a, k) == Find(b, k)
    ensures b != [] && a[0].key == b[0].key
  {
    hide KeyLess;
    FindMember(b, a[0].key);
    assert b != [];
    assert Find(b, b[0].key) == Find(a, b[0].key);
    FindMember(a, b[0].key);
    AscendingTail(a);
    AscendingTail(b);
    if a[0].key != b[0].key {
      var x :| x in b && x.key == a[0].key;
      assert x in b[1..];
      var y :| y in a && y.key == b[0].key;
      assert y in a[1..];
      KeysTotal(a[0].key, b[0].key);
    }
  }

  // ----- what canonicalising keeps -----

  /** Member i is neither dropped nor overridden by a later member with its key. */
  predicate Survives(members: seq<Member>, i: nat)
    requires i < |members|
  {
    !Dropped(members[i].key) && forall j :: i < j < |members| ==> members[j].key != members[i].key
  }

  /** Every value that canonicalising looks at, other than lists and objects, satisfies `q`. */
  predicate KeptAll(j: Json, q: Json -> bool) {
    match j
    case Arr(items) => forall i :: 0 <= i < |items| ==> KeptAll(items[i], q)
    case Obj(members) => forall i :: 0 <= i < |members| && Survives(members, i) ==> KeptAll(members[i].value, q)
    case _ => q(j)
  }

  lemma {:induction false} SurvivorFound(members: seq<Member>, i: nat)
    requires i < |members| && Survives(members, i)
    ensures Lookup(members, members[i].key) == Some(members[i].value)
  {
    var n := |members| - 1;
    if i < n {
      SurvivorFound(members[..n], i);
    }
  }

  lemma {:induction false} FoundSurvives(members: seq<Member>, k: string) returns (i: nat)
    requires Lookup(members, k).Some?
    ensures i < |members| && Survives(members, i) && members[i].key == k && members[i].value == Lookup(members, k).value
  {
    var n := |members| - 1;
    if members[n].key == k {
      i := n;
    } else {
      i := FoundSurvives(members[..n], k);
    }
  }

  // ----- same form, same meaning -----

  predicate Scalar(j: Json) {
    !j.Arr? && !j.Obj?
  }

  lemma SameScalar(a: Json, b: Json)
    requires Scalar(a) && Scalar(b)
    ensures CanonOf(a) == CanonOf(b) <==> Denote(a, AS_CODED) == Denote(b, AS_CODED)
  {
    ScalarForm(a);
    ScalarForm(b);
    FormInjective(Denote(a, AS_CODED), Denote(b, AS_CODED));
  }

  /** The form that carries a scalar meaning. */
  function Form(m: Meaning): Canon
    requires !m.MList? && !m.MMap? && !m.MInfinite?
  {
    match m
    case MNull => CNull
    case MBool(b) => CBool(b)
    case MInt(z) => ReviveInt(z)
    case MDouble(x) => CNum(x)
    case MText(s) => CText(s)
  }

  predicate Proper(m: Meaning) {
    match m
    case MInfinite(_) => false
    case MDouble(x) => !SafeInteger(x)
    case MText(s) => !IsBigintText(s)
    case MList(_) => false
    case MMap(_) => false
    case _ => true
  }

  lemma ScalarForm(j: Json)
    requires Scalar(j)
    ensures Proper(Denote(j, AS_CODED)) && CanonOf(j) == Form(Denote(j, AS_CODED))
  {
    if j.DblNum? && SafeInteger(j.x) {
      assert j.x.Floor as real == j.x;
    }
  }

  lemma FormInjective(m: Meaning, n: Meaning)
    requires Proper(m) && Proper(n)
    ensures Form(m) == Form(n) <==> m == n
  {
    if m.MInt? {
      SpellingMeans(m.z);
      FloorOfInt(m.z);
    }
    if n.MInt? {
      SpellingMeans(n.z);
      FloorOfInt(n.z);
    }
    if m.MInt? && n.MInt? {
      IntegersNeverCollide(m.z, n.z);
    }
  }

  lemma FloorOfInt(z: int)
    ensures (z as real).Floor == z
  {
  }

  /** Two trees have the same canonical form exactly when they mean the same as coded: equal up to member
      order, overridden duplicates, ignored members, infinities taken for null, and the spelling of integers,
      where long ones spelled with an exponent or a fraction stay apart. */
  lemma {:induction false} SameFormIffSameMeaning(a: Json, b: Json)
    ensures CanonOf(a) == CanonOf(b) <==> Denote(a, AS_CODED) == Denote(b, AS_CODED)
    decreases a, 1
  {
    match (a, b)
    case (Arr(xs), Arr(ys)) => SameItems(xs, ys);
    case (Obj(ms), Obj(ns)) => SameMembers(ms, ns);
    case _ =>
      if Scalar(a) && Scalar(b) {
        SameScalar(a, b);
      } else {
        DifferentKinds(a, b);
      }
  }

  lemma DifferentKinds(a: Json, b: Json)
    requires !(Scalar(a) && Scalar(b)) && !(a.Arr? && b.Arr?) && !(a.Obj? && b.Obj?)
    ensures CanonOf(a) != CanonOf(b) && Denote(a, AS_CODED) != Denote(b, AS_CODED)
  {
    hide CanonItems, CanonMembers, DenoteItems, DenoteMembers, IsBigintText, BigintValue;
    if Scalar(a) {
      ScalarForm(a);
    }
    if Scalar(b) {
      ScalarForm(b);
    }
  }

  lemma {:induction false} SameItems(xs: seq<Json>, ys: seq<Json>)
    ensures CanonItems(xs) == CanonItems(ys) <==> DenoteItems(xs, AS_CODED) == DenoteItems(ys, AS_CODED)
    decreases xs, 0
  {
    if |xs| == |ys| && xs != [] {
      var n := |xs| - 1;
      SameItems(xs[..n], ys[..n]);
      SameFormIffSameMeaning(xs[n], ys[n]);
      hide CanonOf, Denote;
      SameLast(CanonItems(xs[..n]), CanonOf(xs[n]), CanonItems(ys[..n]), CanonOf(ys[n]));
      SameLast(DenoteItems(xs[..n], AS_CODED), Denote(xs[n], AS_CODED), DenoteItems(ys[..n], AS_CODED), Denote(ys[n], AS_CODED));
    }
  }

  lemma SameLast<T>(xs: seq<T>, x: T, ys: seq<T>, y: T)
    requires |xs| == |ys|
    ensures xs + [x] == ys + [y] <==> xs == ys && x == y
  {
    if xs + [x] == ys + [y] {
      assert (xs + [x])[..|xs|] == xs && (ys + [y])[..|ys|] == ys;
      assert (xs + [x])[|xs|] == x && (ys + [y])[|ys|] == y;
    }
  }

  /** Under every key the two objects have members with the same form. */
  ghost predicate SameFound(ms: seq<Member>, ns: seq<Member>) {
    forall k :: CanonFound(Lookup(ms, k)) == CanonFound(Lookup(ns, k))
  }

  lemma {:induction false} SameMembers(ms: seq<Member>, ns: seq<Member>)
    ensures CanonMembers(ms) == CanonMembers(ns) <==> DenoteMembers(ms, AS_CODED) == DenoteMembers(ns, AS_CODED)
    decreases ms, 0
  {
    SameFoundForm(ms, ns);
    forall k ensures CanonFound(Lookup(ms, k)) == CanonFound(Lookup(ns, k)) <==> DenoteFound(ms, k) == DenoteFound(ns, k) {
      if Lookup(ms, k).Some? && Lookup(ns, k).Some? {
        SameFormIffSameMeaning(Lookup(ms, k).value, Lookup(ns, k).value);
      }
    }
    SameFoundMeaning(ms, ns);
  }

  function DenoteFound(ms: seq<Member>, k: string): Option<Meaning> {
    var j := Lookup(ms, k);
    if j.None? then None else Some(Denote(j.value, AS_CODED))
  }

  lemma {:induction false} SameFoundForm(ms: seq<Member>, ns: seq<Member>)
    ensures CanonMembers(ms) == CanonMembers(ns) <==> SameFound(ms, ns)
  {
    hide CanonMembers, Lookup, Find, CanonFound;
    var a, b := CanonMembers(ms), CanonMembers(ns);
    forall k ensures Find(a, k) == CanonFound(Lookup(ms, k)) && Find(b, k) == CanonFound(Lookup(ns, k)) {
      MembersFind(ms, k);
      MembersFind(ns, k);
    }
    if SameFound(ms, ns) {
      forall k ensures Find(a, k) == Find(b, k) {
        assert CanonFound(Lookup(ms, k)) == CanonFound(Lookup(ns, k));
      }
      MembersAscending(ms);
      MembersAscending(ns);
      SortedUnique(a, b);
    }
  }

  lemma SameFoundMeaning(ms: seq<Member>, ns: seq<Member>)
    ensures DenoteMembers(ms, AS_CODED) == DenoteMembers(ns, AS_CODED) <==> forall k :: DenoteFound(ms, k) == DenoteFound(ns, k)
  {
    hide DenoteMembers, Lookup;
    var a, b := DenoteMembers(ms, AS_CODED), DenoteMembers(ns, AS_CODED);
    forall k ensures k in a <==> DenoteFound(ms, k).Some? {
      MembersDenote(ms, k, AS_CODED);
    }
    forall k ensures k in b <==> DenoteFound(ns, k).Some? {
      MembersDenote(ns, k, AS_CODED);
    }
    forall k | k in a ensures DenoteFound(ms, k) == Some(a[k]) {
      MembersDenote(ms, k, AS_CODED);
    }
    forall k | k in b ensures DenoteFound(ns, k) == Some(b[k]) {
      MembersDenote(ns, k, AS_CODED);
    }
    hide DenoteFound;
    if forall k :: DenoteFound(ms, k) == DenoteFound(ns, k) {
      forall k ensures (k in a <==> k in b) && (k in a ==> a[k] == b[k]) {
        assert DenoteFound(ms, k) == DenoteFound(ns, k);
      }
    } else {
      var k :| DenoteFound(ms, k) != DenoteFound(ns, k);
      assert a != b;
    }
  }

  // ----- where code and documentation differ -----

  /** Nothing that canonicalising keeps of the tree is read differently. */
  predicate Untouched(j: Json, rd: Reading) {
    match j
    case HugeNum(_) => rd.infiniteIsNull
    case DblNum(x) => rd.longApart || !LongInteger(x)
    case Arr(items) => forall i :: 0 <= i < |items| ==> Untouched(items[i], rd)
    case Obj(members) =>
      (rd.protoIgnored || !HasProto(members)) &&
      forall i :: 0 <= i < |members| && Survives(members, i) ==> Untouched(members[i].value, rd)
    case _ => true
  }

  /** A reading and the code's agree on a tree exactly when the tree keeps nothing they read differently: an
      overflowing token, a `__proto__` member, or a long integer with an exponent or a fraction. */
  lemma {:induction false} ReadingsAgreeIff(j: Json, rd: Reading)
    ensures Denote(j, AS_CODED) == Denote(j, rd) <==> Untouched(j, rd)
    decreases j, 1
  {
    match j
    case Arr(items) =>
      ItemsAgreeIff(items, rd);
      assert Untouched(j, rd) <==> forall i :: 0 <= i < |items| ==> Untouched(items[i], rd);
    case Obj(members) => MembersAgreeIff(members, rd);
    case _ =>
  }

  lemma {:induction false} ItemsAgreeIff(items: seq<Json>, rd: Reading)
    ensures DenoteItems(items, AS_CODED) == DenoteItems(items, rd) <==> forall i :: 0 <= i < |items| ==> Untouched(items[i], rd)
    decreases items, 0
  {
    if items != [] {
      var n := |items| - 1;
      ItemsAgreeIff(items[..n], rd);
      ReadingsAgreeIff(items[n], rd);
      hide Denote, Untouched;
      SameLast(DenoteItems(items[..n], AS_CODED), Denote(items[n], AS_CODED), DenoteItems(items[..n], rd), Denote(items[n], rd));
    }
  }

  lemma {:induction false} MembersAgreeIff(members: seq<Member>, rd: Reading)
    ensures DenoteMembers(members, AS_CODED) == DenoteMembers(members, rd) <==>
            (rd.protoIgnored || !HasProto(members)) &&
            forall i :: 0 <= i < |members| && Survives(members, i) ==> Untouched(members[i].value, rd)
    decreases members, 0
  {
    hide Denote, Untouched, Survives, DenoteMembers;
    var a, b := DenoteMembers(members, AS_CODED), DenoteMembers(members, rd);
    MembersDenote(members, "__proto__", AS_CODED);
    if rd.protoIgnored {
      MembersDenote(members, "__proto__", rd);
    } else {
      ProtoDenote(members, rd);
    }
    assert "__proto__" !in a && ("__proto__" in b <==> !rd.protoIgnored && HasProto(members));
    hide HasProto, Lookup;
    forall k | k != "__proto__"
      ensures (k in a <==> Lookup(members, k).Some?) && (k in b <==> Lookup(members, k).Some?)
      ensures k in a ==> (a[k] == b[k] <==> Untouched(Lookup(members, k).value, rd))
    {
      MembersDenote(members, k, AS_CODED);
      MembersDenote(members, k, rd);
      if k in a {
        ReadingsAgreeIff(Lookup(members, k).value, rd);
      }
    }
    if a == b {
      forall i | 0 <= i < |members| && Survives(members, i) ensures Untouched(members[i].value, rd) {
        SurvivorFound(members, i);
        SurvivorKept(members, i);
        assert members[i].key in a;
      }
    }
    if forall i :: 0 <= i < |members| && Survives(members, i) ==> Untouched(members[i].value, rd) {
      forall k | k in a ensures k in b && a[k] == b[k] {
        var i := FoundSurvives(members, k);
      }
    }
  }

  lemma SurvivorKept(members: seq<Member>, i: nat)
    requires i < |members| && Survives(members, i)
    ensures members[i].key != "__proto__"
  {
  }

  /** On trees that keep nothing read differently, code and documentation agree about which are the same. */
  lemma {:induction false} SameFormAsDocumented(a: Json, b: Json, rd: Reading)
    requires Untouched(a, rd) && Untouched(b, rd)
    ensures CanonOf(a) == CanonOf(b) <==> Denote(a, rd) == Denote(b, rd)
  {
    SameFormIffSameMeaning(a, b);
    ReadingsAgreeIff(a, rd);
    ReadingsAgreeIff(b, rd);
  }

  /** Numbers too large for a double collide: with each other, whatever their sign, and with null. */
  lemma OverflowCollides()
    ensures CanonOf(HugeNum(false)) == CanonOf(HugeNum(true)) == CanonOf(Null)
    ensures Denote(HugeNum(false), AS_DOCUMENTED) != Denote(HugeNum(true), AS_DOCUMENTED)
    ensures Denote(HugeNum(false), AS_DOCUMENTED) != Denote(Null, AS_DOCUMENTED)
    ensures Denote(HugeNum(true), AS_DOCUMENTED) != Denote(Null, AS_DOCUMENTED)
  {
  }

  /** A member named `__proto__` is lost, whatever its value: the object collides with the one without it. */
  lemma {:induction false} ProtoCollides(members: seq<Member>, value: Json)
    requires !HasProto(members)
    ensures var longer := members + [Member("__proto__", value)];
            && CanonOf(Obj(longer)) == CanonOf(Obj(members))
            && Denote(Obj(longer), AS_DOCUMENTED) != Denote(Obj(members), AS_DOCUMENTED)
  {
    var longer := members + [Member("__proto__", value)];
    assert longer[..|members|] == members;
    assert longer[|members|].key == "__proto__" && HasProto(longer);
    ProtoDenote(members, AS_DOCUMENTED);
    ProtoDenote(longer, AS_DOCUMENTED);
  }

  /** An integer spelled with an exponent or a fraction is only recognised up to 2^53 - 1: beyond,
      the same number written as digits has another form. */
  lemma ExponentSpellingDiffers(x: real)
    requires x == x.Floor as real
    ensures CanonOf(DblNum(x)) == CanonOf(IntNum(x.Floor)) <==> Safe(x.Floor)
  {
    FloorOfInt(x.Floor);
  }

  // ----- canonicalising twice -----

  /** Doubles from here on print with an exponent. */
  const PRINT_LIMIT: real := 1000000000000000000000.0

  /** An integral double that prints as plain digits although it is not a safe integer. */
  predicate PrintsUnsafe(x: real) {
    x == x.Floor as real && !Safe(x.Floor) && -PRINT_LIMIT < x < PRINT_LIMIT
  }

  /** Printing a canonical tree and parsing it again. `digits` gives the integer printed for an unsafe
      integral double, which need not be its exact value. */
  function Reread(c: Canon, digits: real -> int): Json
    decreases c, 0
  {
    match c
    case CNull => Null
    case CBool(b) => Bool(b)
    case CNum(x) =>
      if SafeInteger(x) then IntNum(x.Floor)
      else if PrintsUnsafe(x) then IntNum(digits(x))
      else DblNum(x)
    case CText(s) => Str(s)
    case CArr(items) => Arr(RereadItems(items, digits))
    case CObj(entries) => Obj(RereadEntries(entries, digits))
  }

  function RereadItems(items: seq<Canon>, digits: real -> int): (r: seq<Json>)
    ensures |r| == |items|
    decreases items, 0
  {
    if items == [] then [] else RereadItems(items[..|items| - 1], digits) + [Reread(items[|items| - 1], digits)]
  }

  function RereadEntries(es: seq<Entry>, digits: real -> int): (r: seq<Member>)
    ensures |r| == |es|
    decreases es, 0
  {
    if es == [] then []
    else
      RereadEntries(es[..|es| - 1], digits) + [Member(es[|es| - 1].key, Reread(es[|es| - 1].value, digits))]
  }

  /** No number in the tree prints as an unsafe run of digits. */
  predicate Stable(c: Canon) {
    match c
    case CNum(x) => !PrintsUnsafe(x)
    case CArr(items) => forall i :: 0 <= i < |items| ==> Stable(items[i])
    case CObj(entries) => forall i :: 0 <= i < |entries| ==> Stable(entries[i].value)
    case _ => true
  }

  /** What canonicalising produces: members in order without the dropped keys, integer texts only for
      unsafe integers in their shortest spelling. */
  predicate IsCanonical(c: Canon) {
    match c
    case CText(s) => IsBigintText(s) ==> !Safe(BigintValue(s)) && s == BigintSpelling(BigintValue(s))
    case CArr(items) => forall i :: 0 <= i < |items| ==> IsCanonical(items[i])
    case CObj(entries) =>
      Ascending(entries) && forall i :: 0 <= i < |entries| ==> !Dropped(entries[i].key) && IsCanonical(entries[i].value)
    case _ => true
  }

  predicate GoodEntry(e: Entry) {
    !Dropped(e.key) && IsCanonical(e.value)
  }

  lemma {:induction false} CanonIsCanonical(j: Json)
    ensures IsCanonical(CanonOf(j))
    decreases j, 1
  {
    hide IsBigintText, BigintValue, BigintSpelling, Safe, CanonItems, CanonMembers, Ascending, GoodEntry;
    match j
    case Arr(items) => ItemsCanonical(items);
    case Obj(members) =>
      MembersCanonical(members);
      MembersAscending(members);
      GoodEntries(CanonMembers(members));
    case _ => LeafCanonical(j);
  }

  lemma LeafCanonical(j: Json)
    requires !j.Arr? && !j.Obj?
    ensures IsCanonical(CanonOf(j))
  {
    hide IsBigintText, BigintValue, BigintSpelling;
    match j
    case IntNum(z) => SpellingMeans(z);
    case Str(s) => if IsBigintText(s) { SpellingMeans(BigintValue(s)); }
    case _ =>
  }

  lemma GoodEntries(es: seq<Entry>)
    requires Ascending(es) && forall e :: e in es ==> GoodEntry(e)
    ensures IsCanonical(CObj(es))
  {
    forall i | 0 <= i < |es| ensures !Dropped(es[i].key) && IsCanonical(es[i].value) {
      assert GoodEntry(es[i]);
    }
  }

  lemma {:induction false} ItemsCanonical(items: seq<Json>)
    ensures forall i :: 0 <= i < |items| ==> IsCanonical(CanonItems(items)[i])
    decreases items, 0
  {
    if items != [] {
      ItemsCanonical(items[..|items| - 1]);
      CanonIsCanonical(items[|items| - 1]);
    }
  }

  lemma {:induction false} MembersCanonical(members: seq<Member>)
    ensures forall e :: e in CanonMembers(members) ==> GoodEntry(e)
    decreases members, 0
  {
    if members != [] {
      var n := |members| - 1;
      MembersCanonical(members[..n]);
      CanonIsCanonical(members[n].value);
      if !Dropped(members[n].key) {
        PutMembers(CanonMembers(members[..n]), members[n].key, CanonOf(members[n].value));
      }
    }
  }

  /** Putting a key beyond all others appends it. */
  lemma {:induction false} PutLast(es: seq<Entry>, k: string, v: Canon)
    requires forall e :: e in es ==> KeyLess(e.key, k)
    ensures Put(es, k, v) == es + [Entry(k, v)]
  {
    if es != [] {
      KeysTotal(es[0].key, k);
      PutLast(es[1..], k, v);
      assert es == [es[0]] + es[1..];
    }
  }

  /** Unsafe integral doubles print as integers that are unsafe as well. */
  ghost predicate PrintsFaithfully(digits: real -> int) {
    forall x :: PrintsUnsafe(x) ==> !Safe(digits(x))
  }

  /** Canonicalising a canonical tree again changes nothing exactly when no number in it prints as an
      unsafe run of digits. */
  lemma {:induction false} CanonAgain(c: Canon, digits: real -> int)
    requires IsCanonical(c) && PrintsFaithfully(digits)
    ensures CanonOf(Reread(c, digits)) == c <==> Stable(c)
    decreases c, 1
  {
    hide CanonItems, CanonMembers, RereadItems, RereadEntries;
    match c
    case CNum(x) => if SafeInteger(x) { assert x.Floor as real == x; }
    case CArr(items) => ItemsAgain(items, digits);
    case CObj(entries) => EntriesAgain(entries, digits);
    case _ =>
  }

  lemma {:induction false} ItemsAgain(items: seq<Canon>, digits: real -> int)
    requires PrintsFaithfully(digits) && forall i :: 0 <= i < |items| ==> IsCanonical(items[i])
    ensures CanonItems(RereadItems(items, digits)) == items <==> forall i :: 0 <= i < |items| ==> Stable(items[i])
    decreases items, 0
  {
    hide CanonOf, Reread, Stable, IsCanonical;
    if items != [] {
      var front, last := items[..|items| - 1], items[|items| - 1];
      ItemsAgain(front, digits);
      CanonAgain(last, digits);
      assert items == front + [last];
      OneMoreItem(front, last, digits);
    }
  }

  lemma OneMoreItem(front: seq<Canon>, last: Canon, digits: real -> int)
    ensures CanonItems(RereadItems(front + [last], digits)) == front + [last] <==>
            CanonItems(RereadItems(front, digits)) == front && CanonOf(Reread(last, digits)) == last
  {
    hide CanonOf, Reread;
    var items := front + [last];
    assert items[..|items| - 1] == front;
    var before, item := RereadItems(front, digits), Reread(last, digits);
    assert RereadItems(items, digits) == before + [item];
    assert (before + [item])[..|before|] == before;
    assert CanonItems(before + [item]) == CanonItems(before) + [CanonOf(item)];
    hide RereadItems, CanonItems;
    SameLast(CanonItems(before), CanonOf(item), front, last);
  }

  lemma {:induction false} EntriesAgain(es: seq<Entry>, digits: real -> int)
    requires PrintsFaithfully(digits) && Ascending(es) && forall i :: 0 <= i < |es| ==> GoodEntry(es[i])
    ensures CanonMembers(RereadEntries(es, digits)) == es <==> forall i :: 0 <= i < |es| ==> Stable(es[i].value)
    ensures SameKeys(CanonMembers(RereadEntries(es, digits)), es)
    decreases es, 0
  {
    if es == [] {
      hide CanonOf, Reread, Stable, IsCanonical, KeyLess, Put;
    } else {
      hide *;
      var front, last := es[..|es| - 1], es[|es| - 1];
      SplitLast(es);
      EntriesAgain(front, digits);
      CanonAgain(last.value, digits);
      OneMoreEntry(front, last, digits);
    }
  }

  lemma SplitLast(es: seq<Entry>)
    requires es != [] && Ascending(es) && forall i :: 0 <= i < |es| ==> GoodEntry(es[i])
    ensures var front, last := es[..|es| - 1], es[|es| - 1];
            es == front + [last] && Ascending(front) && (forall i :: 0 <= i < |front| ==> GoodEntry(front[i])) &&
            !Dropped(last.key) && IsCanonical(last.value) &&
            ((forall i :: 0 <= i < |es| ==> Stable(es[i].value)) <==>
             (forall i :: 0 <= i < |front| ==> Stable(front[i].value)) && Stable(last.value))
  {
    hide KeyLess, IsCanonical, Stable, Dropped;
    assert GoodEntry(es[|es| - 1]);
  }

  lemma OneMoreEntry(front: seq<Entry>, last: Entry, digits: real -> int)
    requires Ascending(front + [last]) && !Dropped(last.key)
    requires SameKeys(CanonMembers(RereadEntries(front, digits)), front)
    ensures var again := CanonMembers(RereadEntries(front + [last], digits));
            SameKeys(again, front + [last]) &&
            (again == front + [last] <==>
             CanonMembers(RereadEntries(front, digits)) == front && CanonOf(Reread(last.value, digits)) == last.value)
  {
    var done, v := CanonMembers(RereadEntries(front, digits)), CanonOf(Reread(last.value, digits));
    RereadOneMore(front, last, digits);
    hide *;
    AllBelow(front, last);
    KeysBelow(done, front, last.key);
    PutLast(done, last.key, v);
    SameLast(done, Entry(last.key, v), front, last);
    OneMoreKey(done, front, last, v);
  }

  lemma OneMoreKey(done: seq<Entry>, front: seq<Entry>, last: Entry, v: Canon)
    requires SameKeys(done, front)
    ensures SameKeys(done + [Entry(last.key, v)], front + [last])
    ensures Entry(last.key, v) == last <==> v == last.value
  {
  }

  lemma RereadOneMore(front: seq<Entry>, last: Entry, digits: real -> int)
    requires !Dropped(last.key)
    ensures CanonMembers(RereadEntries(front + [last], digits)) ==
            Put(CanonMembers(RereadEntries(front, digits)), last.key, CanonOf(Reread(last.value, digits)))
  {
    hide CanonOf, Reread, Put, Dropped;
    var es := front + [last];
    assert es[..|es| - 1] == front;
    var before, member := RereadEntries(front, digits), Member(last.key, Reread(last.value, digits));
    assert RereadEntries(es, digits) == before + [member];
    assert (before + [member])[..|before|] == before;
  }

  lemma AllBelow(front: seq<Entry>, last: Entry)
    requires Ascending(front + [last])
    ensures forall e :: e in front ==> KeyLess(e.key, last.key)
  {
    hide KeyLess;
    var es := front + [last];
    forall e | e in front ensures KeyLess(e.key, last.key) {
      var i :| 0 <= i < |front| && front[i] == e;
      assert KeyLess(es[i].key, es[|front|].key);
    }
  }

  predicate SameKeys(a: seq<Entry>, b: seq<Entry>) {
    |a| == |b| && forall i :: 0 <= i < |a| ==> a[i].key == b[i].key
  }

  lemma KeysBelow(done: seq<Entry>, front: seq<Entry>, k: string)
    requires SameKeys(done, front) && forall e :: e in front ==> KeyLess(e.key, k)
    ensures forall e :: e in done ==> KeyLess(e.key, k)
  {
    forall e | e in done ensures KeyLess(e.key, k) {
      var i :| 0 <= i < |done| && done[i] == e;
      assert front[i] in front;
    }
  }

  /** No number token that canonicalising keeps prints as an unsafe run of digits. */
  predicate StableJson(j: Json) {
    KeptAll(j, PrintsSafely)
  }

  predicate PrintsSafely(leaf: Json) {
    leaf.DblNum? ==> !PrintsUnsafe(leaf.x)
  }

  lemma {:induction false} StableIffKept(j: Json)
    ensures Stable(CanonOf(j)) <==> StableJson(j)
    decreases j, 1
  {
    match j
    case Arr(items) =>
      StableItems(items);
      assert CanonOf(j) == CArr(CanonItems(items));
    case Obj(members) => StableMembers(members);
    case IntNum(z) => FloorOfInt(z);
    case Str(s) => if IsBigintText(s) { FloorOfInt(BigintValue(s)); }
    case _ =>
  }

  predicate AllStable(cs: seq<Canon>) {
    forall c :: c in cs ==> Stable(c)
  }

  predicate AllStableJson(items: seq<Json>) {
    forall i :: 0 <= i < |items| ==> StableJson(items[i])
  }

  lemma {:induction false} StableItems(items: seq<Json>)
    ensures Stable(CArr(CanonItems(items))) <==> AllStable(CanonItems(items))
    ensures AllStable(CanonItems(items)) <==> AllStableJson(items)
    ensures AllStableJson(items) <==> StableJson(Arr(items))
    decreases items, 0
  {
    if items == [] {
    } else {
      var n := |items| - 1;
      StableItems(items[..n]);
      StableIffKept(items[n]);
    }
  }

  lemma {:induction false} StableMembers(members: seq<Member>)
    ensures Stable(CObj(CanonMembers(members))) <==>
            forall i :: 0 <= i < |members| && Survives(members, i) ==> StableJson(members[i].value)
    decreases members, 0
  {
    var es := CanonMembers(members);
    assert Stable(CObj(es)) <==> forall i :: 0 <= i < |es| ==> Stable(es[i].value);
    hide CanonOf, KeptAll, Stable, Survives, CanonMembers, Lookup;
    MembersAscending(members);
    if forall i :: 0 <= i < |es| ==> Stable(es[i].value) {
      forall i | 0 <= i < |members| && Survives(members, i) ensures StableJson(members[i].value) {
        SurvivorFound(members, i);
        MembersFind(members, members[i].key);
        var e := FoundEntry(es, members[i].key);
        StableIffKept(members[i].value);
      }
    }
    if forall i :: 0 <= i < |members| && Survives(members, i) ==> StableJson(members[i].value) {
      forall i | 0 <= i < |es| ensures Stable(es[i].value) {
        OwnEntry(es, i);
        MembersFind(members, es[i].key);
        var k := FoundSurvives(members, es[i].key);
        StableIffKept(members[k].value);
      }
    }
  }

  lemma {:induction false} FoundEntry(es: seq<Entry>, k: string) returns (i: nat)
    requires Find(es, k).Some?
    ensures i < |es| && es[i].key == k && es[i].value == Find(es, k).value
  {
    if es[0].key == k {
      i := 0;
    } else {
      i := FoundEntry(es[1..], k);
      i := i + 1;
    }
  }

  lemma {:induction false} OwnEntry(es: seq<Entry>, i: nat)
    requires Ascending(es) && i < |es|
    ensures Find(es, es[i].key) == Some(es[i].value)
  {
    hide KeyLess;
    if i > 0 {
      assert KeyLess(es[0].key, es[i].key);
      KeysTotal(es[0].key, es[i].key);
      AscendingTail(es);
      OwnEntry(es[1..], i - 1);
    }
  }

  /** Canonicalising the printed canonical form gives it back exactly when no number token that the
      input keeps is an integer beyond 2^53 - 1 that prints as digits. */
  lemma {:induction false} IdempotentIffStable(j: Json, digits: real -> int)
    requires PrintsFaithfully(digits)
    ensures CanonOf(Reread(CanonOf(j), digits)) == CanonOf(j) <==> StableJson(j)
  {
    CanonIsCanonical(j);
    CanonAgain(CanonOf(j), digits);
    StableIffKept(j);
  }

  /** A tree that canonicalising changes twice. */
  lemma NotAlwaysIdempotent(digits: real -> int)
    requires PrintsFaithfully(digits)
    ensures CanonOf(Reread(CanonOf(DblNum(100000000000000000000.0)), digits)) != CanonOf(DblNum(100000000000000000000.0))
  {
    assert PrintsUnsafe(100000000000000000000.0);
    IdempotentIffStable(DblNum(100000000000000000000.0), digits);
  }
}
