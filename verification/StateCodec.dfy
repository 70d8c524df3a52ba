/** The oracle's second implementation of the state-section codec, and the encoded length of
    constructor slots. */
module StateCodec {
  import opened Collections
  import opened Numbers
  import opened Wrappers
  import opened Hex
  import opened ShapeLang
  import opened ShapeRender

  // ----- sign-magnitude numbers -----

  /** The weight of the top bit of an `L`-byte number. */
  function TopBit(L: nat): nat
    requires L > 0
  {
    128 * Pow256(L - 1)
  }

  lemma TopBitIsHalf(L: nat)
    requires L > 0
    ensures 2 * TopBit(L) == Pow256(L)
  {
  }

  /** What little-endian bytes mean as a script number: the top bit of the last byte is the sign. */
  function NumValue(bs: seq<Byte>): int {
    if bs == [] then 0
    else if LeValue(bs) >= TopBit(|bs|) then -(LeValue(bs) - TopBit(|bs|))
    else LeValue(bs)
  }

  /** The sign-magnitude bit pattern of `n` in `L` bytes. */
  function Pattern(n: int, L: nat): nat
    requires L > 0
  {
    if n < 0 then TopBit(L) + Abs(n) else Abs(n)
  }

  lemma PatternMeans(n: int, L: nat)
    requires L > 0 && Abs(n) < TopBit(L)
    ensures NumValue(LeBytes(Pattern(n, L), L)) == n
  {
    TopBitIsHalf(L);
    LeRoundTrip(Pattern(n, L), L);
  }

  /** However they are written, `L` bytes hold a magnitude below the top bit. */
  lemma NumValueBound(bs: seq<Byte>)
    ensures bs == [] ==> NumValue(bs) == 0
    ensures bs != [] ==> Abs(NumValue(bs)) < TopBit(|bs|)
  {
    LeValueBound(bs);
    if bs != [] {
      TopBitIsHalf(|bs|);
    }
  }

  // ----- num2binLE8 -----

  lemma EightBytes()
    ensures Pow256(8) == TWO64 && TopBit(8) == TWO63 && Pow256(7) == 0x100_0000_0000_0000
  {
    assert Pow256(2) == 0x1_0000;
    assert Pow256(4) == 0x1_0000_0000;
    assert Pow256(6) == 0x1_0000_0000_0000;
    assert Pow256(7) == 0x100_0000_0000_0000;
  }

  /** The 64-bit word the encoder leaves: the low 64 bits of the magnitude, and the top bit forced on
      for a negative number. */
  function Word64(n: int): (w: nat)
    ensures w < TWO64
  {
    var low := Abs(n) % TWO64;
    if n < 0 && low < TWO63 then low + TWO63 else low
  }

  /** Setting bit 7 of a byte. */
  function WithTopBit(b: Byte): Byte {
    if b < 128 then b + 128 else b
  }

  method Num2BinLE8(n: int) returns (hex: string)
    ensures hex == HexOf(LeBytes(Word64(n), 8))
  {
    hide HexOf, LeBytes, LeValue, Pow256, Word64;
    var bytes := new Byte[8](_ => 0);
    var negative := n < 0;
    var mag := Abs(n);
    var i := 0;
    NoBytes(mag);
    assert bytes[..0] == [];
    while i < 8 && mag > 0
      invariant 0 <= i <= 8
      invariant mag == Abs(n) / Pow256(i)
      invariant bytes[..i] == LeBytes(Abs(n), i)
      invariant forall j :: i <= j < 8 ==> bytes[j] == 0
    {
      ghost var before := bytes[..i];
      LeBytesAppend(Abs(n), i);
      NextByte(Abs(n), i);
      bytes[i] := mag % 256;
      assert bytes[..i + 1] == before + [bytes[i]];
      mag := mag / 256;
      i := i + 1;
    }
    ghost var low := bytes[..];
    assert low[..i] == bytes[..i];
    ZeroPadded(Abs(n), i, low);
    WordBytes(n, low);
    if negative {
      bytes[7] := WithTopBit(bytes[7]);
      assert bytes[..] == low[7 := WithTopBit(low[7])];
    }
    hex := JoinHex(bytes);
  }

  method JoinHex(bytes: array<Byte>) returns (hex: string)
    ensures hex == HexOf(bytes[..])
  {
    hex := "";
    for k := 0 to bytes.Length
      invariant hex == HexOf(bytes[..k])
    {
      HexAppend(bytes[..k], bytes[k]);
      assert bytes[..k + 1] == bytes[..k] + [bytes[k]];
      hex := hex + HexByte(bytes[k]);
    }
    assert bytes[..bytes.Length] == bytes[..];
  }

  lemma NoBytes(x: nat)
    ensures x / Pow256(0) == x && LeBytes(x, 0) == []
  {
  }

  lemma {:induction false} NextByte(x: nat, i: nat)
    ensures x / Pow256(i + 1) == x / Pow256(i) / 256
  {
    DivStep(x, Pow256(i));
  }

  lemma HexAppend(bs: seq<Byte>, b: Byte)
    ensures HexOf(bs + [b]) == HexOf(bs) + HexByte(b)
  {
    HexConcat(bs, [b]);
    assert HexOf([b]) == HexByte(b) + HexOf([]);
  }

  /** Once the magnitude is used up, the remaining bytes are zero. */
  lemma {:induction false} ZeroPadded(x: nat, i: nat, bs: seq<Byte>)
    requires i <= |bs| && bs[..i] == LeBytes(x, i) && (i < |bs| ==> x / Pow256(i) == 0)
    requires forall j :: i <= j < |bs| ==> bs[j] == 0
    ensures bs == LeBytes(x, |bs|)
    decreases |bs| - i
  {
    if i < |bs| {
      LeBytesAppend(x, i);
      DivStep(x, Pow256(i));
      assert bs[..i + 1] == bs[..i] + [0];
      ZeroPadded(x, i + 1, bs);
    } else {
      assert bs[..i] == bs;
    }
  }

  lemma {:induction false} LeValueUpdateTop(bs: seq<Byte>, d: int)
    requires bs != [] && 0 <= bs[|bs| - 1] + d < 256
    ensures LeValue(bs[|bs| - 1 := bs[|bs| - 1] + d]) == LeValue(bs) + d * Pow256(|bs| - 1)
  {
    var k := |bs| - 1;
    var cs := bs[k := bs[k] + d];
    if k == 0 {
      assert cs[1..] == [] && bs[1..] == [];
    } else {
      LeValueUpdateTop(bs[1..], d);
      assert cs[1..] == bs[1..][k - 1 := bs[k] + d];
      assert LeValue(bs) == bs[0] + 256 * LeValue(bs[1..]) && LeValue(cs) == bs[0] + 256 * LeValue(cs[1..]);
      OneWeightUp(d, k);
      hide LeValue, Pow256;
    }
  }

  lemma OneWeightUp(d: int, k: nat)
    requires k > 0
    ensures 256 * (d * Pow256(k - 1)) == d * Pow256(k)
  {
    var w := Pow256(k - 1);
    assert Pow256(k) == 256 * w;
    hide Pow256;
  }

  /** Setting the top bit of the last byte adds its weight, unless it is already there. */
  lemma TopBitSet(m: nat, low: seq<Byte>)
    requires low == LeBytes(m, 8)
    ensures LeValue(low) == m % TWO64
    ensures LeValue(low[7 := WithTopBit(low[7])]) == if m % TWO64 < TWO63 then m % TWO64 + TWO63 else m % TWO64
  {
    EightBytes();
    LeRoundTrip(m, 8);
    LeValueUpdateTop(low, WithTopBit(low[7]) - low[7]);
    LastByteRules(low);
  }

  lemma Scale(b: nat, p: nat, v: nat, low: Byte)
    requires b * p <= v < (b + 1) * p
    ensures b * (256 * p) <= low + 256 * v < (b + 1) * (256 * p)
  {
    var lo, hi := b * p, (b + 1) * p;
    assert b * (256 * p) == 256 * lo && (b + 1) * (256 * p) == 256 * hi;
  }

  lemma {:induction false} LastByte(bs: seq<Byte>)
    requires bs != []
    ensures bs[|bs| - 1] * Pow256(|bs| - 1) <= LeValue(bs) < (bs[|bs| - 1] + 1) * Pow256(|bs| - 1)
  {
    if |bs| > 1 {
      LastByte(bs[1..]);
      Scale(bs[|bs| - 1], Pow256(|bs| - 2), LeValue(bs[1..]), bs[0]);
    } else {
      assert bs[1..] == [];
    }
  }

  lemma LastByteRules(low: seq<Byte>)
    requires |low| == 8
    ensures low[7] < 128 <==> LeValue(low) < TWO63
  {
    EightBytes();
    LastByte(low);
  }

  lemma WordBytes(n: int, low: seq<Byte>)
    requires low == LeBytes(Abs(n), 8)
    ensures LeBytes(Word64(n), 8) == if n < 0 then low[7 := WithTopBit(low[7])] else low
  {
    TopBitSet(Abs(n), low);
    var bs := if n < 0 then low[7 := WithTopBit(low[7])] else low;
    LeBytesBack(bs);
  }

  /** Eight bytes carry a number exactly when its magnitude stays below 2^63. */
  lemma Num2BinFaithful(n: int)
    ensures NumValue(LeBytes(Word64(n), 8)) == n <==> Abs(n) < TWO63
  {
    EightBytes();
    var bs := LeBytes(Word64(n), 8);
    LeRoundTrip(Word64(n), 8);
    NumValueBound(bs);
    if Abs(n) < TWO63 {
      assert Abs(n) % TWO64 == Abs(n);
    }
  }

  // ----- the state section -----

  /** Values as the shapes hold them: byte strings and keys are hex with two digits a byte. */
  predicate WholeBytes(t: ShapeType, v: Value) {
    HasType(v, t) && (v.Hex? ==> |v.hex| % 2 == 0)
  }

  /** The values whose encoding can be read back. */
  predicate Representable(t: ShapeType, v: Value) {
    match t
    case BigintT => v.Int? && Abs(v.n) < TWO63
    case BooleanT => v.Bool?
    case PubKeyT => v.Hex? && |v.hex| == 66
    case ByteStringT => v.Hex? && |v.hex| % 2 == 0 && |v.hex| / 2 < 65536
  }

  function LengthPrefix(len: nat): string {
    if len <= 75 then HexByte(len)
    else if len <= 0xff then "4c" + HexByte(len)
    else "4d" + HexByte(len % 256) + HexByte(len / 256 % 256)
  }

  function FieldHex(t: ShapeType, v: Value): string
    requires WholeBytes(t, v)
  {
    match t
    case BigintT => HexOf(LeBytes(Word64(v.n), 8))
    case BooleanT => if v.b then "01" else "00"
    case PubKeyT => v.hex
    case ByteStringT => LengthPrefix(|v.hex| / 2) + v.hex
  }

  predicate AllWhole(fields: seq<Member>, values: map<string, Value>) {
    forall f :: f in fields ==> f.name in values && WholeBytes(f.ty, values[f.name])
  }

  function SectionHex(fields: seq<Member>, values: map<string, Value>): string
    requires AllWhole(fields, values)
  {
    if fields == [] then ""
    else SectionHex(fields[..|fields| - 1], values) + FieldHex(Last(fields).ty, values[Last(fields).name])
  }

  function Last(fields: seq<Member>): Member
    requires fields != []
    ensures Last(fields) in fields
  {
    fields[|fields| - 1]
  }

  method EncodeStateSectionHex(fields: seq<Member>, values: map<string, Value>) returns (hex: string)
    requires AllWhole(fields, values)
    ensures hex == SectionHex(fields, values)
  {
    hex := "";
    for i := 0 to |fields|
      invariant hex == SectionHex(fields[..i], values)
    {
      var f := fields[i];
      var v := values[f.name];
      match f.ty {
        case BigintT =>
          var word := Num2BinLE8(v.n);
          hex := hex + word;
        case BooleanT =>
          hex := hex + if v.b then "01" else "00";
        case PubKeyT =>
          hex := hex + v.hex;
        case ByteStringT =>
          var len := |v.hex| / 2;
          if len <= 75 {
            hex := hex + (HexByte(len) + v.hex);
          } else if len <= 0xff {
            hex := hex + ("4c" + HexByte(len) + v.hex);
          } else {
            var lo, hi := HexByte(len % 256), HexByte(len / 256 % 256);
            hex := hex + ("4d" + lo + hi + v.hex);
          }
      }
      assert fields[..i + 1][..i] == fields[..i] && Last(fields[..i + 1]) == f;
    }
    assert fields[..|fields|] == fields;
  }

  // ----- the decoder -----

  datatype Read = Read(v: Value, rest: string)

  /** The byte count a length prefix announces and the text after the prefix. */
  datatype Prefix = Prefix(len: nat, rest: string)

  function ReadPrefix(s: string): Option<Prefix> {
    if |s| < 2 || HexPair(s) < 0 then None
    else
      var b := HexPair(s);
      if b <= 75 then Some(Prefix(b, s[2..]))
      else if b == 0x4c then
        if |s| < 4 || HexPair(s[2..]) < 0 then None else Some(Prefix(HexPair(s[2..]), s[4..]))
      else if b == 0x4d then
        if |s| < 6 || HexPair(s[2..]) < 0 || HexPair(s[4..]) < 0 then None
        else Some(Prefix(HexPair(s[2..]) + 256 * HexPair(s[4..]), s[6..]))
      else None
  }

  function ReadField(t: ShapeType, s: string): Option<Read> {
    match t
    case BigintT => if |s| < 16 then None else Some(Read(Int(NumValue(FromHex(s[..16]))), s[16..]))
    case BooleanT =>
      if |s| < 2 || (s[..2] != "00" && s[..2] != "01") then None else Some(Read(Bool(s[..2] == "01"), s[2..]))
    case PubKeyT => if |s| < 66 then None else Some(Read(Value.Hex(s[..66]), s[66..]))
    case ByteStringT =>
      var p := ReadPrefix(s);
      if p.None? || |p.value.rest| < 2 * p.value.len then None
      else Some(Read(Value.Hex(p.value.rest[..2 * p.value.len]), p.value.rest[2 * p.value.len..]))
  }

  /** Reads the fields left to right; the whole text must be used up. */
  function Decode(fields: seq<Member>, s: string): Option<seq<Value>> {
    if fields == [] then (if s == "" then Some([]) else None)
    else
      var first := ReadField(fields[0].ty, s);
      if first.None? then None else Push(first.value.v, Decode(fields[1..], first.value.rest))
  }

  function Values(fields: seq<Member>, values: map<string, Value>): seq<Value>
    requires AllWhole(fields, values)
  {
    if fields == [] then [] else [values[fields[0].name]] + Values(fields[1..], values)
  }

  lemma MiddleSlice(fields: seq<Member>)
    requires |fields| > 1
    ensures fields[..|fields| - 1][1..] == fields[1..][..|fields[1..]| - 1]
    ensures Last(fields[1..]) == Last(fields) && fields[..|fields| - 1][0] == fields[0]
  {
  }

  lemma {:induction false} SectionFront(fields: seq<Member>, values: map<string, Value>)
    requires fields != [] && AllWhole(fields, values)
    ensures SectionHex(fields, values) ==
            FieldHex(fields[0].ty, values[fields[0].name]) + SectionHex(fields[1..], values)
  {
    if |fields| == 1 {
      assert fields[..0] == [] && fields[1..] == [];
    } else {
      var front, tail := fields[..|fields| - 1], fields[1..];
      SectionFront(front, values);
      MiddleSlice(fields);
      var mid, last := SectionHex(front[1..], values), FieldHex(Last(fields).ty, values[Last(fields).name]);
      assert SectionHex(tail, values) == mid + last;
      hide FieldHex;
      Associate(FieldHex(fields[0].ty, values[fields[0].name]), mid, last);
    }
  }

  /** A field's encoding is read back, with whatever follows it left over, exactly when its value is
      representable. */
  lemma FieldRoundTrip(t: ShapeType, v: Value, rest: string)
    requires WholeBytes(t, v)
    ensures Representable(t, v) ==> ReadField(t, FieldHex(t, v) + rest) == Some(Read(v, rest))
    ensures !Representable(t, v) ==>
              ReadField(t, FieldHex(t, v) + rest).None? || ReadField(t, FieldHex(t, v) + rest).value.v != v
  {
    match t
    case BigintT => BigintRoundTrip(v.n, rest);
    case BooleanT =>
      var s := FieldHex(t, v) + rest;
      assert s[..2] == FieldHex(t, v) && s[2..] == rest;
    case PubKeyT =>
      var s := v.hex + rest;
      if |v.hex| == 66 {
        assert s[..66] == v.hex && s[66..] == rest;
      }
    case ByteStringT => ByteStringRoundTrip(v, rest);
  }

  lemma BigintRoundTrip(n: int, rest: string)
    ensures var r := ReadField(BigintT, FieldHex(BigintT, Int(n)) + rest);
            r.Some? && r.value.rest == rest && (r.value.v == Int(n) <==> Abs(n) < TWO63)
  {
    var bs := LeBytes(Word64(n), 8);
    var s := HexOf(bs) + rest;
    HexLength(bs);
    HexRoundTrip(bs);
    Num2BinFaithful(n);
    CutAfter(HexOf(bs), rest);
  }

  lemma {:induction false} PrefixRoundTrip(len: nat, rest: string)
    ensures ReadPrefix(LengthPrefix(len) + rest) == Some(Prefix(len % 65536, rest))
  {
    if len <= 75 {
      PairFirst(len, rest);
    } else if len <= 0xff {
      OneByteLength(len, rest);
    } else {
      TwoByteLength(len % 256, len / 256 % 256, rest);
      TwoLowBytes(len);
    }
  }

  lemma OneByteLength(len: Byte, rest: string)
    ensures ReadPrefix("4c" + HexByte(len) + rest) == Some(Prefix(len, rest))
  {
    var s, tail := "4c" + HexByte(len) + rest, HexByte(len) + rest;
    Associate("4c", HexByte(len), rest);
    assert HexByte(0x4c) == "4c";
    PairFirst(0x4c, tail);
    PairFirst(len, rest);
    hide HexPair, HexByte;
    assert s[4..] == tail[2..];
  }

  lemma TwoByteLength(lo: Byte, hi: Byte, rest: string)
    ensures ReadPrefix("4d" + HexByte(lo) + HexByte(hi) + rest) == Some(Prefix(lo + 256 * hi, rest))
  {
    var s := "4d" + HexByte(lo) + HexByte(hi) + rest;
    var two, one := HexByte(lo) + (HexByte(hi) + rest), HexByte(hi) + rest;
    assert HexByte(0x4d) == "4d";
    hide HexPair, HexByte, ReadPrefix;
    assert s == "4d" + two;
    PairFirst(0x4d, two);
    PairFirst(lo, one);
    PairFirst(hi, rest);
    ReadTwoByteLength(s, two, one, rest, lo, hi);
  }

  lemma ReadTwoByteLength(s: string, two: string, one: string, rest: string, lo: Byte, hi: Byte)
    requires |s| >= 6 && |two| >= 4 && |one| >= 2
    requires s[2..] == two && two[2..] == one && one[2..] == rest
    requires HexPair(s) == 0x4d && HexPair(two) == lo && HexPair(one) == hi
    ensures ReadPrefix(s) == Some(Prefix(lo + 256 * hi, rest))
  {
    hide HexPair;
    assert s[4..] == two[2..] && s[6..] == one[2..];
  }

  lemma TwoLowBytes(len: nat)
    ensures len % 256 + 256 * (len / 256 % 256) == len % 65536
  {
    ModStep(len, 256);
  }

  /** What is read depends on the announced length only. */
  lemma AnnouncedBytes(s: string, hex: string, rest: string, announced: nat)
    requires |hex| % 2 == 0 && announced <= |hex| / 2
    requires ReadPrefix(s) == Some(Prefix(announced, hex + rest))
    ensures var r := ReadField(ByteStringT, s);
            if announced == |hex| / 2 then r == Some(Read(Value.Hex(hex), rest))
            else r.Some? && r.value.v != Value.Hex(hex)
  {
    hide ReadPrefix;
    CutAfter(hex, rest);
  }

  lemma ByteStringHex(v: Value, rest: string)
    requires WholeBytes(ByteStringT, v)
    ensures FieldHex(ByteStringT, v) + rest == LengthPrefix(|v.hex| / 2) + (v.hex + rest)
  {
    hide LengthPrefix;
    Associate(LengthPrefix(|v.hex| / 2), v.hex, rest);
  }

  lemma Low16(len: nat)
    ensures len % 65536 <= len && (len % 65536 == len <==> len < 65536)
  {
  }

  lemma {:induction false} ByteStringRoundTrip(v: Value, rest: string)
    requires WholeBytes(ByteStringT, v)
    ensures var r := ReadField(ByteStringT, FieldHex(ByteStringT, v) + rest);
            if |v.hex| / 2 < 65536 then r == Some(Read(v, rest)) else r.Some? && r.value.v != v
  {
    var len := |v.hex| / 2;
    ByteStringHex(v, rest);
    Low16(len);
    hide *;
    PrefixRoundTrip(len, v.hex + rest);
    AnnouncedBytes(FieldHex(ByteStringT, v) + rest, v.hex, rest, len % 65536);
  }

  function Push(v: Value, more: Option<seq<Value>>): Option<seq<Value>> {
    if more.None? then None else Some([v] + more.value)
  }

  lemma SameTail(v: Value, a: Option<seq<Value>>, b: seq<Value>)
    ensures Push(v, a) == Some([v] + b) <==> a == Some(b)
  {
    if a.Some? && [v] + a.value == [v] + b {
      assert ([v] + a.value)[1..] == a.value && ([v] + b)[1..] == b;
    }
  }

  lemma OtherHead(u: Value, a: Option<seq<Value>>, v: Value, b: seq<Value>)
    requires u != v
    ensures Push(u, a) != Some([v] + b)
  {
    if a.Some? {
      assert ([u] + a.value)[0] != ([v] + b)[0];
    }
  }

  predicate AllRepresentable(fields: seq<Member>, values: map<string, Value>)
    requires AllWhole(fields, values)
  {
    forall f :: f in fields ==> Representable(f.ty, values[f.name])
  }

  /** The decoder undoes the encoder on a section exactly when every value in it is representable. */
  lemma {:induction false} SectionRoundTrip(fields: seq<Member>, values: map<string, Value>)
    requires AllWhole(fields, values)
    ensures Decode(fields, SectionHex(fields, values)) == Some(Values(fields, values)) <==> AllRepresentable(fields, values)
  {
    if fields != [] {
      var f, tail := fields[0], fields[1..];
      var v, rest := values[f.name], SectionHex(tail, values);
      SectionFront(fields, values);
      FieldRoundTrip(f.ty, v, rest);
      SectionRoundTrip(tail, values);
      hide FieldHex, ReadField, SectionHex, Representable, WholeBytes;
      assert fields == [f] + tail;
      var more := Values(tail, values);
      assert Values(fields, values) == [v] + more;
      var r := ReadField(f.ty, SectionHex(fields, values));
      if r.Some? && r.value.v == v {
        SameTail(v, Decode(tail, r.value.rest), more);
      } else if r.Some? {
        OtherHead(r.value.v, Decode(tail, r.value.rest), v, more);
      }
    }
  }

  /** So no two different states of the same fields share an encoding. */
  lemma EncodingInjective(fields: seq<Member>, a: map<string, Value>, b: map<string, Value>)
    requires AllWhole(fields, a) && AllRepresentable(fields, a)
    requires AllWhole(fields, b) && AllRepresentable(fields, b)
    requires SectionHex(fields, a) == SectionHex(fields, b)
    ensures Values(fields, a) == Values(fields, b)
  {
    SectionRoundTrip(fields, a);
    SectionRoundTrip(fields, b);
  }

  // ----- constructor slots -----

  /** `L` bytes are enough for `n` as a script number, and `L - 1` are not. */
  predicate LeastBytes(n: int, L: nat) {
    L > 0 && Abs(n) < TopBit(L) && (L > 1 ==> Abs(n) >= TopBit(L - 1))
  }

  predicate SingleOpcode(n: int) {
    -1 <= n <= 16
  }

  method BigintSlotLength(n: int) returns (len: nat)
    ensures SingleOpcode(n) ==> len == 1
    ensures !SingleOpcode(n) ==> len >= 2 && LeastBytes(n, len - 1)
  {
    if n == 0 || n == -1 || 1 <= n <= 16 {
      return 1;
    }
    var mag := Abs(n);
    var bytes := 0;
    while mag > 0
      invariant mag == Abs(n) / Pow256(bytes)
      invariant bytes > 0 ==> Abs(n) >= Pow256(bytes - 1)
      invariant bytes == 0 ==> mag > 0
    {
      AtLeastOnce(Abs(n), Pow256(bytes));
      DivStep(Abs(n), Pow256(bytes));
      mag := mag / 256;
      bytes := bytes + 1;
    }
    AtLeastOnce(Abs(n), Pow256(bytes));
    assert Abs(n) < Pow256(bytes);
    var abs := Abs(n);
    ghost var extra := TopByteUses(abs, bytes);
    if abs / Pow256(bytes - 1) / 128 % 2 == 1 {
      bytes := bytes + 1;
    }
    len := 1 + bytes;
  }

  lemma AtLeastOnce(x: nat, p: nat)
    requires p > 0
    ensures x / p > 0 <==> x >= p
  {
    var q, r := x / p, x % p;
    assert x == p * q + r;
    assert q >= 1 ==> p * q >= p;
  }

  /** The top payload byte has its high bit set exactly when the magnitude reaches the sign's weight. */
  lemma TopByteUses(x: nat, bytes: nat) returns (used: bool)
    requires bytes > 0 && Pow256(bytes - 1) <= x < Pow256(bytes)
    ensures used == (x / Pow256(bytes - 1) / 128 % 2 == 1)
    ensures used <==> x >= TopBit(bytes)
    ensures used ==> LeastBytes(x, bytes + 1)
    ensures !used ==> LeastBytes(x, bytes)
  {
    var p := Pow256(bytes - 1);
    used := x / p / 128 % 2 == 1;
    HighBit(x, p);
    if bytes > 1 {
      TopBitIsHalf(bytes - 1);
    }
  }

  lemma {:induction false} HighBit(x: nat, p: nat)
    requires p > 0 && p <= x < 256 * p
    ensures x / p / 128 % 2 == 1 <==> x >= 128 * p
  {
    var q := x / p;
    assert x == p * q + x % p;
    MulMono(p, 256, q);
    MulMono(p, q, 127);
    MulMono(p, 128, q);
    assert q < 256;
  }

  /** The least byte count is the length of the shortest little-endian sign-magnitude number with
      that value. */
  lemma LeastIsShortest(n: int, L: nat)
    requires !SingleOpcode(n) && LeastBytes(n, L)
    ensures exists bs :: |bs| == L && NumValue(bs) == n
    ensures forall bs :: NumValue(bs) == n ==> |bs| >= L
  {
    PatternMeans(n, L);
    forall bs | NumValue(bs) == n ensures |bs| >= L {
      NumValueBound(bs);
      if |bs| >= 1 && L >= 2 {
        TopBitMono(|bs|, L - 1);
      }
    }
  }

  lemma {:induction false} TopBitMono(a: nat, b: nat)
    requires 0 < a && 0 < b
    ensures a <= b ==> TopBit(a) <= TopBit(b)
    decreases b
  {
    if a < b {
      TopBitMono(a, b - 1);
    }
  }

  /** Past the single-opcode range a larger magnitude never has a shorter slot. */
  lemma SlotLengthMonotone(m: int, a: nat, n: int, b: nat)
    requires LeastBytes(m, a) && LeastBytes(n, b) && Abs(m) <= Abs(n)
    ensures a <= b
    ensures Abs(m) == Abs(n) ==> a == b
  {
    if a > 1 {
      TopBitMono(b, a - 1);
    }
    if b > 1 {
      TopBitMono(a, b - 1);
    }
  }

  /** The push header grows with the payload. */
  function PushLength(payload: nat): nat {
    if payload <= 75 then 1 + payload
    else if payload <= 0xff then 2 + payload
    else if payload <= 0xffff then 3 + payload
    else 5 + payload
  }

  /** The bigint branch always counts a one-byte push header, so its result is the minimal push length
      exactly for numbers whose payload a direct push can carry. */
  lemma SlotLengthIsMinimalPush(n: int, L: nat)
    requires !SingleOpcode(n) && LeastBytes(n, L)
    ensures 1 + L == PushLength(L) <==> Abs(n) < TopBit(75)
  {
    if L <= 75 {
      TopBitMono(L, 75);
    } else {
      TopBitMono(75, L - 1);
    }
  }

  // ----- the bytes of a field -----

  /** The length prefix as bytes: the length itself, or a marker and one or two bytes, the lower one first. */
  lemma {:induction false} PrefixBytes(len: nat)
    requires len < 65536
    ensures FromHex(LengthPrefix(len)) ==
            if len <= 75 then [len] else if len <= 255 then [0x4c, len] else [0x4d, len % 256, len / 256]
  {
    PrefixText(len);
    hide *;
    if len <= 75 {
      HexOne(len);
    } else if len <= 255 {
      TwoBytes(0x4c, len);
    } else {
      ThreeBytes(0x4d, len % 256, len / 256);
    }
  }

  lemma PrefixText(len: nat)
    requires len < 65536
    ensures LengthPrefix(len) ==
            if len <= 75 then HexByte(len) else if len <= 255 then HexByte(0x4c) + HexByte(len)
            else HexByte(0x4d) + HexByte(len % 256) + HexByte(len / 256)
  {
    Markers();
    assert len / 256 % 256 == len / 256;
    hide HexByte, HexPair, HexValue;
  }

  lemma TwoBytes(a: Byte, b: Byte)
    ensures FromHex(HexByte(a) + HexByte(b)) == [a, b]
  {
    hide *;
    HexOne(b);
    HexTwo(a, [b]);
    assert [a] + [b] == [a, b];
  }

  lemma ThreeBytes(a: Byte, b: Byte, c: Byte)
    ensures FromHex(HexByte(a) + HexByte(b) + HexByte(c)) == [a, b, c]
  {
    hide *;
    HexOne(c);
    HexTwo(b, [c]);
    HexTwo(a, [b] + [c]);
    Associate(HexByte(a), HexByte(b), HexByte(c));
    assert [a] + ([b] + [c]) == [a, b, c];
  }

  lemma Markers()
    ensures HexByte(0x4c) == "4c" && HexByte(0x4d) == "4d"
  {
  }

  /** A truth value is one byte, 1 or 0. */
  lemma {:induction false} BooleanByte(b: bool)
    ensures FromHex(FieldHex(BooleanT, Bool(b))) == [if b then 1 else 0]
  {
    HexOne(0);
    HexOne(1);
    assert HexByte(0) == "00" && HexByte(1) == "01";
  }

  lemma HexOne(b: Byte)
    ensures HexOf([b]) == HexByte(b) && FromHex(HexByte(b)) == [b]
  {
    assert HexOf([b]) == HexByte(b) + HexOf([b][1..]) && HexByte(b) + "" == HexByte(b);
    HexRoundTrip([b]);
  }

  lemma HexTwo(b: Byte, bs: seq<Byte>)
    ensures HexOf([b] + bs) == HexByte(b) + HexOf(bs) && FromHex(HexByte(b) + HexOf(bs)) == [b] + bs
  {
    HexCons(b, bs);
    HexRoundTrip([b] + bs);
  }

  /** Byte k of an encoded integer counts multiples of 256^k of its magnitude; the top bit of the last byte is
      set for a negative number. */
  lemma {:induction false} IntegerBytes(n: int, k: nat)
    requires k < 8
    ensures var byte := (Abs(n) / Pow256(k)) % 256;
            LeBytes(Word64(n), 8)[k] == if k == 7 && n < 0 then (if byte < 128 then byte + 128 else byte) else byte
  {
    WordBytes(n, LeBytes(Abs(n), 8));
    LeBytesAt(Abs(n), 8, k);
  }
}
