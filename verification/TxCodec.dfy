/** The hand-rolled raw transaction writer and the reparse helpers of the fixture generator. */
module TxCodec {
  import opened Collections
  import opened Numbers
  import opened Hex

  /** Out-of-range reads and writes throw. */
  datatype Result<+T> = Ok(value: T) | RangeError

  datatype TxIn = TxIn(prevTxid: string, prevVout: int, sequence: int)

  datatype TxOut = TxOut(satoshis: int, scriptHex: string)

  /** A value read at the cursor, and the cursor after it. */
  datatype Read<+T> = Read(item: T, next: nat)

  function Reverse(bs: seq<Byte>): (r: seq<Byte>)
    ensures |r| == |bs|
  {
    if bs == [] then [] else Reverse(bs[1..]) + [bs[0]]
  }

  lemma {:induction false} ReverseAppend(bs: seq<Byte>, b: Byte)
    ensures Reverse(bs + [b]) == [b] + Reverse(bs)
  {
    if bs == [] {
      assert [b][1..] == [];
    } else {
      ReverseAppend(bs[1..], b);
      assert (bs + [b])[1..] == bs[1..] + [b];
    }
  }

  lemma {:induction false} ReverseTwice(bs: seq<Byte>)
    ensures Reverse(Reverse(bs)) == bs
  {
    if bs != [] {
      ReverseTwice(bs[1..]);
      ReverseAppend(Reverse(bs[1..]), bs[0]);
    }
  }

  // ----- numbers -----

  function RoundHalfEven(v: nat, unit: nat): nat
    requires unit > 0
  {
    var q, r := v / unit, v % unit;
    if 2 * r < unit || (2 * r == unit && q % 2 == 0) then q else q + 1
  }

  /** The double nearest to a natural number: exact up to 53 bits, then rounded to even. */
  function NearestNumber(v: nat, unit: nat := 1): nat
    requires unit > 0
    decreases v - unit
  {
    if v < TWO53 * unit then RoundHalfEven(v, unit) * unit else NearestNumber(v, 2 * unit)
  }

  /** `n >>> 0` keeps the low 32 bits of any integer. */
  function Low32(n: int): (r: nat)
    ensures r < TWO32 && (n - r) % TWO32 == 0 && (r == n <==> 0 <= n < TWO32)
  {
    n % TWO32
  }

  // ----- writing -----

  /** The largest length that fits four bytes, in half bytes. */
  const MAX_HALVES: nat := 2 * (TWO32 - 1)

  /** A length in half bytes: a script with an odd number of hex digits ends in half a byte. Comparing counts
      the half, writing drops it. */
  function VarintBytes(halves: nat): seq<Byte>
    requires halves <= MAX_HALVES
  {
    if halves < 2 * 0xfd then [halves / 2]
    else if halves <= 2 * 0xffff then [0xfd] + LeBytes(halves / 2, 2)
    else [0xfe] + LeBytes(halves / 2, 4)
  }

  method U32le(n: int) returns (hex: string)
    ensures hex == HexOf(LeBytes(Low32(n), 4))
  {
    hex := HexOf(LeBytes(Low32(n), 4));
  }

  method U64le(n: int) returns (r: Result<string>)
    ensures r == if 0 <= n < TWO64 then Ok(HexOf(LeBytes(n, 8))) else RangeError
  {
    if n < 0 || n >= TWO64 {
      return RangeError;
    }
    r := Ok(HexOf(LeBytes(n, 8)));
  }

  method Varint(halves: nat) returns (r: Result<string>)
    ensures r == if halves <= MAX_HALVES then Ok(HexOf(VarintBytes(halves))) else RangeError
  {
    if halves < 2 * 0xfd {
      r := Ok(HexOf([halves / 2]));
    } else if halves <= 2 * 0xffff {
      r := Ok(HexOf([0xfd] + LeBytes(halves / 2, 2)));
    } else if halves <= MAX_HALVES {
      r := Ok(HexOf([0xfe] + LeBytes(halves / 2, 4)));
    } else {
      r := RangeError;
    }
  }

  function InputHex(i: TxIn): string {
    HexOf(Reverse(FromHex(i.prevTxid))) + HexOf(LeBytes(Low32(i.prevVout), 4)) + HexOf(VarintBytes(0))
    + HexOf(LeBytes(Low32(i.sequence), 4))
  }

  function InputsHex(inputs: seq<TxIn>): string {
    if inputs == [] then "" else InputsHex(inputs[..|inputs| - 1]) + InputHex(inputs[|inputs| - 1])
  }

  predicate Writable(o: TxOut) {
    0 <= o.satoshis < TWO64 && |o.scriptHex| <= MAX_HALVES
  }

  function OutputHex(o: TxOut): string
    requires Writable(o)
  {
    HexOf(LeBytes(o.satoshis, 8)) + HexOf(VarintBytes(|o.scriptHex|)) + o.scriptHex
  }

  predicate AllWritable(outputs: seq<TxOut>) {
    forall o :: o in outputs ==> Writable(o)
  }

  function OutputsHex(outputs: seq<TxOut>): string
    requires AllWritable(outputs)
  {
    if outputs == [] then "" else OutputsHex(outputs[..|outputs| - 1]) + OutputHex(outputs[|outputs| - 1])
  }

  function TxHex(inputs: seq<TxIn>, outputs: seq<TxOut>, lockTime: int): string
    requires |inputs| < TWO32 && |outputs| < TWO32 && AllWritable(outputs)
  {
    HexOf(LeBytes(1, 4)) + HexOf(VarintBytes(2 * |inputs|)) + InputsHex(inputs)
    + HexOf(VarintBytes(2 * |outputs|)) + OutputsHex(outputs) + HexOf(LeBytes(Low32(lockTime), 4))
  }

  lemma InputsStep(inputs: seq<TxIn>, i: TxIn)
    ensures InputsHex(inputs + [i]) == InputsHex(inputs) + InputHex(i)
  {
    assert (inputs + [i])[..|inputs|] == inputs;
  }

  lemma OutputsStep(outputs: seq<TxOut>, o: TxOut)
    requires AllWritable(outputs) && Writable(o)
    ensures AllWritable(outputs + [o]) && OutputsHex(outputs + [o]) == OutputsHex(outputs) + OutputHex(o)
  {
    assert (outputs + [o])[..|outputs|] == outputs;
  }

  lemma NoneWritten()
    ensures InputsHex([]) == "" && OutputsHex([]) == ""
  {
  }

  method BuildUnsignedTx(inputs: seq<TxIn>, outputs: seq<TxOut>, lockTime: int) returns (r: Result<string>)
    ensures r.Ok? <==> |inputs| < TWO32 && |outputs| < TWO32 && AllWritable(outputs)
    ensures r.Ok? ==> r.value == TxHex(inputs, outputs, lockTime)
  {
    hide HexOf, LeBytes, FromHex, VarintBytes, Reverse, InputsHex, OutputsHex;
    NoneWritten();
    var hex := U32le(1);
    var count := Varint(2 * |inputs|);
    if count.RangeError? {
      return RangeError;
    }
    hex := hex + count.value;
    ghost var head := hex;
    for k := 0 to |inputs|
      invariant hex == head + InputsHex(inputs[..k])
    {
      var inp := inputs[k];
      var leTxid := HexOf(Reverse(FromHex(inp.prevTxid)));
      var vout := U32le(inp.prevVout);
      var empty := Varint(0);
      var sequence := U32le(inp.sequence);
      InputsStep(inputs[..k], inp);
      assert inputs[..k + 1] == inputs[..k] + [inp];
      hex := hex + (leTxid + vout + empty.value + sequence);
    }
    assert inputs[..|inputs|] == inputs;
    count := Varint(2 * |outputs|);
    if count.RangeError? {
      return RangeError;
    }
    hex := hex + count.value;
    head := hex;
    for k := 0 to |outputs|
      invariant AllWritable(outputs[..k])
      invariant hex == head + OutputsHex(outputs[..k])
    {
      var out := outputs[k];
      var value := U64le(out.satoshis);
      var length := Varint(|out.scriptHex|);
      if value.RangeError? || length.RangeError? {
        assert !Writable(out);
        return RangeError;
      }
      OutputsStep(outputs[..k], out);
      assert outputs[..k + 1] == outputs[..k] + [out];
      hex := hex + (value.value + length.value + out.scriptHex);
    }
    assert outputs[..|outputs|] == outputs;
    var lock := U32le(lockTime);
    r := Ok(hex + lock);
  }

  // ----- reading -----

  function ReadLe(buf: seq<Byte>, o: nat, w: nat): Result<nat> {
    if o + w > |buf| then RangeError else Ok(LeValue(buf[o..o + w]))
  }

  /** A slice that stops at the end of the buffer. */
  function Subarray(buf: seq<Byte>, from: nat, to: nat): seq<Byte>
    requires from <= to
  {
    buf[if from < |buf| then from else |buf|..if to < |buf| then to else |buf|]
  }

  /** A first byte past the end is `undefined`, which falls through to the eight-byte read. */
  function ReadVarint(buf: seq<Byte>, o: nat): Result<Read<nat>> {
    if o < |buf| && buf[o] < 0xfd then Ok(Read(buf[o] as nat, o + 1))
    else if o < |buf| && buf[o] == 0xfd then
      (match ReadLe(buf, o + 1, 2) case Ok(v) => Ok(Read(v, o + 3)) case RangeError => RangeError)
    else if o < |buf| && buf[o] == 0xfe then
      (match ReadLe(buf, o + 1, 4) case Ok(v) => Ok(Read(v, o + 5)) case RangeError => RangeError)
    else
      (match ReadLe(buf, o + 1, 8) case Ok(v) => Ok(Read(NearestNumber(v), o + 9)) case RangeError => RangeError)
  }

  function ReadInput(buf: seq<Byte>, o: nat): Result<Read<TxIn>> {
    var txid := HexOf(Reverse(Subarray(buf, o, o + 32)));
    var vout := ReadLe(buf, o + 32, 4);
    if vout.RangeError? then RangeError
    else
      var script := ReadVarint(buf, o + 36);
      if script.RangeError? then RangeError
      else
        var at := script.value.next + script.value.item;
        var sequence := ReadLe(buf, at, 4);
        if sequence.RangeError? then RangeError
        else Ok(Read(TxIn(txid, vout.value, sequence.value), at + 4))
  }

  function Prepend<T>(xs: seq<T>, r: Result<seq<T>>): Result<seq<T>> {
    if r.RangeError? then RangeError else Ok(xs + r.value)
  }

  lemma PrependTwice<T>(xs: seq<T>, ys: seq<T>, r: Result<seq<T>>)
    ensures Prepend(xs, Prepend(ys, r)) == Prepend(xs + ys, r)
  {
    if r.Ok? {
      assert xs + (ys + r.value) == xs + ys + r.value;
    }
  }

  lemma PrependNothing<T>(r: Result<seq<T>>)
    ensures Prepend([], r) == r
  {
    if r.Ok? {
      assert [] + r.value == r.value;
    }
  }

  function ReadInputs(buf: seq<Byte>, o: nat, n: nat): Result<seq<TxIn>>
    decreases n
  {
    if n == 0 then Ok([])
    else
      var first := ReadInput(buf, o);
      if first.RangeError? then RangeError
      else Prepend([first.value.item], ReadInputs(buf, first.value.next, n - 1))
  }

  method ParseInputs(txHex: string) returns (r: Result<seq<TxIn>>)
    ensures r == (var buf := FromHex(txHex);
                  var count := ReadVarint(buf, 4);
                  if count.RangeError? then RangeError else ReadInputs(buf, count.value.next, count.value.item))
  {
    hide FromHex, HexOf, Reverse, Subarray, ReadVarint, ReadLe;
    var buf := FromHex(txHex);
    var count := ReadVarint(buf, 4);
    if count.RangeError? {
      return RangeError;
    }
    var o: nat := count.value.next;
    var inputs: seq<TxIn> := [];
    ghost var all := ReadInputs(buf, o, count.value.item);
    PrependNothing(all);
    for i := 0 to count.value.item
      invariant all == Prepend(inputs, ReadInputs(buf, o, count.value.item - i))
    {
      ghost var start, seen := o, inputs;
      var leTxid := Subarray(buf, o, o + 32);
      o := o + 32;
      var vout := ReadLe(buf, o, 4);
      if vout.RangeError? {
        return RangeError;
      }
      o := o + 4;
      var script := ReadVarint(buf, o);
      if script.RangeError? {
        return RangeError;
      }
      o := script.value.next + script.value.item;
      var sequence := ReadLe(buf, o, 4);
      if sequence.RangeError? {
        return RangeError;
      }
      o := o + 4;
      var input := TxIn(HexOf(Reverse(leTxid)), vout.value, sequence.value);
      assert ReadInput(buf, start) == Ok(Read(input, o));
      inputs := inputs + [input];
      PrependTwice(seen, [input], ReadInputs(buf, o, count.value.item - i - 1));
    }
    assert inputs + [] == inputs;
    r := Ok(inputs);
  }

  /** The cursor after `n` inputs, which the output reader only steps over. */
  function SkipInputs(buf: seq<Byte>, o: nat, n: nat): Result<nat>
    decreases n
  {
    if n == 0 then Ok(o)
    else
      var script := ReadVarint(buf, o + 36);
      if script.RangeError? then RangeError
      else SkipInputs(buf, script.value.next + script.value.item + 4, n - 1)
  }

  function ReadOutput(buf: seq<Byte>, o: nat): Result<Read<TxOut>> {
    var sats := ReadLe(buf, o, 8);
    if sats.RangeError? then RangeError
    else
      var length := ReadVarint(buf, o + 8);
      if length.RangeError? then RangeError
      else
        var end := length.value.next + length.value.item;
        Ok(Read(TxOut(NearestNumber(sats.value), HexOf(Subarray(buf, length.value.next, end))), end))
  }

  function ReadOutputs(buf: seq<Byte>, o: nat, n: nat): Result<seq<TxOut>>
    decreases n
  {
    if n == 0 then Ok([])
    else
      var first := ReadOutput(buf, o);
      if first.RangeError? then RangeError
      else Prepend([first.value.item], ReadOutputs(buf, first.value.next, n - 1))
  }

  function OutputsOf(buf: seq<Byte>): Result<seq<TxOut>> {
    var nIn := ReadVarint(buf, 4);
    if nIn.RangeError? then RangeError
    else
      var at := SkipInputs(buf, nIn.value.next, nIn.value.item);
      if at.RangeError? then RangeError
      else
        var nOut := ReadVarint(buf, at.value);
        if nOut.RangeError? then RangeError else ReadOutputs(buf, nOut.value.next, nOut.value.item)
  }

  method ParseOutputs(txHex: string) returns (r: Result<seq<TxOut>>)
    ensures r == OutputsOf(FromHex(txHex))
  {
    hide FromHex, HexOf, Subarray, NearestNumber, ReadVarint, ReadLe;
    var buf := FromHex(txHex);
    var nIn := ReadVarint(buf, 4);
    if nIn.RangeError? {
      return RangeError;
    }
    var o: nat := nIn.value.next;
    for i := 0 to nIn.value.item
      invariant SkipInputs(buf, o, nIn.value.item - i) == SkipInputs(buf, nIn.value.next, nIn.value.item)
    {
      o := o + 36;
      var script := ReadVarint(buf, o);
      if script.RangeError? {
        return RangeError;
      }
      o := script.value.next + script.value.item + 4;
    }
    var nOut := ReadVarint(buf, o);
    if nOut.RangeError? {
      return RangeError;
    }
    o := nOut.value.next;
    var outputs: seq<TxOut> := [];
    ghost var all := ReadOutputs(buf, o, nOut.value.item);
    PrependNothing(all);
    for i := 0 to nOut.value.item
      invariant all == Prepend(outputs, ReadOutputs(buf, o, nOut.value.item - i))
    {
      ghost var start, seen := o, outputs;
      var sats := ReadLe(buf, o, 8);
      if sats.RangeError? {
        return RangeError;
      }
      o := o + 8;
      var length := ReadVarint(buf, o);
      if length.RangeError? {
        return RangeError;
      }
      o := length.value.next;
      var scriptHex := HexOf(Subarray(buf, o, o + length.value.item));
      o := o + length.value.item;
      var output := TxOut(NearestNumber(sats.value), scriptHex);
      assert ReadOutput(buf, start) == Ok(Read(output, o));
      outputs := outputs + [output];
      PrependTwice(seen, [output], ReadOutputs(buf, o, nOut.value.item - i - 1));
    }
    assert outputs + [] == outputs;
    r := Ok(outputs);
  }

  // ----- what is written is read back -----

  /** The buffer carries `bs` at offset `o`. */
  predicate At(buf: seq<Byte>, o: nat, bs: seq<Byte>) {
    o + |bs| <= |buf| && buf[o..o + |bs|] == bs
  }

  lemma AtConcat(buf: seq<Byte>, o: nat, a: seq<Byte>, b: seq<Byte>)
    requires At(buf, o, a + b)
    ensures At(buf, o, a) && At(buf, o + |a|, b)
  {
    var ab := buf[o..o + |a + b|];
    assert ab[..|a|] == a && ab[|a|..] == b;
    assert buf[o..o + |a|] == ab[..|a|];
    assert buf[o + |a|..o + |a| + |b|] == ab[|a|..];
  }

  lemma ReadLeAt(buf: seq<Byte>, o: nat, x: nat, w: nat)
    requires At(buf, o, LeBytes(x, w)) && x < Pow256(w)
    ensures ReadLe(buf, o, w) == Ok(x)
  {
    LeRoundTrip(x, w);
  }

  lemma Widths()
    ensures Pow256(2) == 0x1_0000 && Pow256(4) == TWO32 && Pow256(8) == TWO64
  {
    assert Pow256(2) == 0x1_0000;
    assert Pow256(4) == TWO32;
    assert Pow256(6) == 0x1_0000_0000_0000;
  }

  /** At any offset, for every length the writer accepts, the reader gets it back and stops right
      behind it. */
  lemma VarintRoundTrip(buf: seq<Byte>, o: nat, halves: nat)
    requires halves <= MAX_HALVES && At(buf, o, VarintBytes(halves))
    ensures ReadVarint(buf, o) == Ok(Read(halves / 2, o + |VarintBytes(halves)|))
  {
    Widths();
    if halves < 2 * 0xfd {
      assert buf[o] == buf[o..o + 1][0];
    } else {
      var tag, w := if halves <= 2 * 0xffff then 0xfd else 0xfe, if halves <= 2 * 0xffff then 2 else 4;
      AtConcat(buf, o, [tag], LeBytes(halves / 2, w));
      assert buf[o] == buf[o..o + 1][0];
      ReadLeAt(buf, o + 1, halves / 2, w);
    }
  }

  lemma SubarrayAt(buf: seq<Byte>, o: nat, bs: seq<Byte>)
    requires At(buf, o, bs)
    ensures Subarray(buf, o, o + |bs|) == bs
  {
  }

  predicate ReadableInput(i: TxIn) {
    |i.prevTxid| == 64 && LowerHex(i.prevTxid)
  }

  function InputBytes(i: TxIn): seq<Byte> {
    Reverse(FromHex(i.prevTxid)) + (LeBytes(Low32(i.prevVout), 4) + (VarintBytes(0) + LeBytes(Low32(i.sequence), 4)))
  }

  lemma InputHexIsBytes(i: TxIn)
    ensures InputHex(i) == HexOf(InputBytes(i))
  {
    hide HexOf, LeBytes, FromHex, VarintBytes, Reverse;
    var a, b, c, d := Reverse(FromHex(i.prevTxid)), LeBytes(Low32(i.prevVout), 4), VarintBytes(0), LeBytes(Low32(i.sequence), 4);
    FourParts(a, b, c, d);
  }

  lemma FourParts(a: seq<Byte>, b: seq<Byte>, c: seq<Byte>, d: seq<Byte>)
    ensures HexOf(a + (b + (c + d))) == HexOf(a) + HexOf(b) + HexOf(c) + HexOf(d)
  {
    hide *;
    HexConcat(c, d);
    HexConcat(b, c + d);
    HexConcat(a, b + (c + d));
    var u, v, w, x := HexOf(a), HexOf(b), HexOf(c), HexOf(d);
    Associate(u, v, w + x);
    Associate(u + v, w, x);
  }

  /** What reading an input back gives: the 32-bit fields reduced to their width. */
  function Wrapped(i: TxIn): TxIn {
    TxIn(i.prevTxid, Low32(i.prevVout), Low32(i.sequence))
  }

  lemma InputRoundTrip(buf: seq<Byte>, o: nat, i: TxIn)
    requires ReadableInput(i) && At(buf, o, InputBytes(i))
    ensures ReadInput(buf, o) == Ok(Read(Wrapped(i), o + |InputBytes(i)|)) && |InputBytes(i)| == 41
    ensures SkipInputs(buf, o, 1) == Ok(o + 41)
  {
    var txid := Reverse(FromHex(i.prevTxid));
    var vout, empty, sequence := LeBytes(Low32(i.prevVout), 4), VarintBytes(0), LeBytes(Low32(i.sequence), 4);
    HexBack(i.prevTxid);
    ReverseTwice(FromHex(i.prevTxid));
    AtConcat(buf, o, txid, vout + (empty + sequence));
    AtConcat(buf, o + 32, vout, empty + sequence);
    AtConcat(buf, o + 36, empty, sequence);
    SubarrayAt(buf, o, txid);
    Widths();
    ReadLeAt(buf, o + 32, Low32(i.prevVout), 4);
    VarintRoundTrip(buf, o + 36, 0);
    ReadLeAt(buf, o + 37, Low32(i.sequence), 4);
    hide LeBytes, FromHex, Reverse, HexOf, ReadLe, ReadVarint, VarintBytes;
  }

  function InputsBytes(inputs: seq<TxIn>): seq<Byte> {
    if inputs == [] then [] else InputBytes(inputs[0]) + InputsBytes(inputs[1..])
  }

  lemma {:induction false} InputsFront(inputs: seq<TxIn>)
    ensures InputsHex(inputs) == HexOf(InputsBytes(inputs))
    decreases |inputs|
  {
    if inputs != [] {
      var front, last := inputs[..|inputs| - 1], inputs[|inputs| - 1];
      InputsFront(front);
      InputHexIsBytes(last);
      InputsBytesAppend(front, last);
      hide InputHex, InputBytes, HexOf, InputsBytes;
      HexConcat(InputsBytes(front), InputBytes(last));
      assert front + [last] == inputs;
    }
  }

  lemma {:induction false} InputsBytesAppend(inputs: seq<TxIn>, i: TxIn)
    ensures InputsBytes(inputs + [i]) == InputsBytes(inputs) + InputBytes(i)
  {
    hide InputBytes;
    if inputs == [] {
      assert [i][1..] == [];
      assert [] + InputBytes(i) == InputBytes(i);
    } else {
      InputsBytesAppend(inputs[1..], i);
      assert (inputs + [i])[1..] == inputs[1..] + [i];
      Associate(InputBytes(inputs[0]), InputsBytes(inputs[1..]), InputBytes(i));
    }
  }

  function WrappedAll(inputs: seq<TxIn>): seq<TxIn> {
    if inputs == [] then [] else [Wrapped(inputs[0])] + WrappedAll(inputs[1..])
  }

  lemma {:induction false} InputsRoundTrip(buf: seq<Byte>, o: nat, inputs: seq<TxIn>)
    requires (forall i :: i in inputs ==> ReadableInput(i)) && At(buf, o, InputsBytes(inputs))
    ensures ReadInputs(buf, o, |inputs|) == Ok(WrappedAll(inputs))
    ensures SkipInputs(buf, o, |inputs|) == Ok(o + |InputsBytes(inputs)|)
    decreases |inputs|
  {
    hide *;
    if inputs == [] {
      NoInputs(buf, o);
    } else {
      var head, tail := inputs[0], inputs[1..];
      FirstInput(inputs);
      AtConcat(buf, o, InputBytes(head), InputsBytes(tail));
      InputRoundTrip(buf, o, head);
      InputsRoundTrip(buf, o + 41, tail);
      OneMoreInput(buf, o, |inputs|, Wrapped(head), o + 41, WrappedAll(tail));
      SkipOne(buf, o, |inputs|);
    }
  }

  lemma NoInputs(buf: seq<Byte>, o: nat)
    ensures InputsBytes([]) == [] && WrappedAll([]) == []
    ensures ReadInputs(buf, o, 0) == Ok([]) && SkipInputs(buf, o, 0) == Ok(o)
  {
  }

  lemma FirstInput(inputs: seq<TxIn>)
    requires inputs != []
    ensures InputsBytes(inputs) == InputBytes(inputs[0]) + InputsBytes(inputs[1..])
    ensures WrappedAll(inputs) == [Wrapped(inputs[0])] + WrappedAll(inputs[1..])
  {
    hide InputBytes, Wrapped;
  }

  lemma OneMoreInput(buf: seq<Byte>, o: nat, n: nat, item: TxIn, next: nat, more: seq<TxIn>)
    requires n > 0 && ReadInput(buf, o) == Ok(Read(item, next)) && ReadInputs(buf, next, n - 1) == Ok(more)
    ensures ReadInputs(buf, o, n) == Ok([item] + more)
  {
    hide ReadInput;
  }

  lemma SkipOne(buf: seq<Byte>, o: nat, n: nat)
    requires n > 0 && SkipInputs(buf, o, 1).Ok?
    ensures SkipInputs(buf, o, n) == SkipInputs(buf, SkipInputs(buf, o, 1).value, n - 1)
  {
    hide ReadVarint;
  }

  predicate ReadableOutput(o: TxOut) {
    Writable(o) && LowerHex(o.scriptHex) && NearestNumber(o.satoshis) == o.satoshis
  }

  predicate AllReadable(outputs: seq<TxOut>)
    ensures AllReadable(outputs) ==> AllWritable(outputs)
  {
    forall o :: o in outputs ==> ReadableOutput(o)
  }

  function OutputBytes(o: TxOut): seq<Byte>
    requires Writable(o)
  {
    LeBytes(o.satoshis, 8) + (VarintBytes(|o.scriptHex|) + FromHex(o.scriptHex))
  }

  lemma OutputHexIsBytes(o: TxOut)
    requires ReadableOutput(o)
    ensures OutputHex(o) == HexOf(OutputBytes(o))
  {
    HexBack(o.scriptHex);
    hide HexOf, LeBytes, VarintBytes, FromHex;
    var a, b, c := LeBytes(o.satoshis, 8), VarintBytes(|o.scriptHex|), FromHex(o.scriptHex);
    HexConcat(b, c);
    HexConcat(a, b + c);
    Associate(HexOf(a), HexOf(b), HexOf(c));
  }

  lemma OutputRoundTrip(buf: seq<Byte>, at: nat, o: TxOut)
    requires ReadableOutput(o) && At(buf, at, OutputBytes(o))
    ensures ReadOutput(buf, at) == Ok(Read(o, at + |OutputBytes(o)|))
  {
    hide At, Subarray, LeBytes, FromHex, HexOf, ReadLe, ReadVarint, VarintBytes, NearestNumber, LowerHex, Pow256;
    var n := |o.scriptHex|;
    var sats, length, script := LeBytes(o.satoshis, 8), VarintBytes(n), FromHex(o.scriptHex);
    HexBack(o.scriptHex);
    AtConcat(buf, at, sats, length + script);
    AtConcat(buf, at + 8, length, script);
    Widths();
    ReadLeAt(buf, at, o.satoshis, 8);
    VarintRoundTrip(buf, at + 8, n);
    SubarrayAt(buf, at + 8 + |length|, script);
  }

  function OutputsBytes(outputs: seq<TxOut>): seq<Byte>
    requires AllWritable(outputs)
  {
    if outputs == [] then [] else OutputBytes(outputs[0]) + OutputsBytes(outputs[1..])
  }

  lemma {:induction false} OutputsFront(outputs: seq<TxOut>)
    requires AllReadable(outputs)
    ensures OutputsHex(outputs) == HexOf(OutputsBytes(outputs))
    decreases |outputs|
  {
    if outputs != [] {
      var front, last := outputs[..|outputs| - 1], outputs[|outputs| - 1];
      OutputsFront(front);
      OutputHexIsBytes(last);
      OutputsBytesAppend(front, last);
      hide OutputHex, OutputBytes, HexOf, OutputsBytes, ReadableOutput;
      HexConcat(OutputsBytes(front), OutputBytes(last));
      assert front + [last] == outputs;
    }
  }

  lemma {:induction false} OutputsBytesAppend(outputs: seq<TxOut>, o: TxOut)
    requires AllWritable(outputs) && Writable(o)
    ensures OutputsBytes(outputs + [o]) == OutputsBytes(outputs) + OutputBytes(o)
  {
    hide OutputBytes;
    if outputs == [] {
      assert [o][1..] == [];
      assert [] + OutputBytes(o) == OutputBytes(o);
    } else {
      OutputsBytesAppend(outputs[1..], o);
      assert (outputs + [o])[1..] == outputs[1..] + [o];
      Associate(OutputBytes(outputs[0]), OutputsBytes(outputs[1..]), OutputBytes(o));
    }
  }

  lemma NoOutputs(buf: seq<Byte>, at: nat)
    ensures ReadOutputs(buf, at, 0) == Ok([])
  {
  }

  lemma FirstOutput(outputs: seq<TxOut>)
    requires outputs != [] && AllReadable(outputs)
    ensures outputs == [outputs[0]] + outputs[1..]
    ensures ReadableOutput(outputs[0]) && Writable(outputs[0]) && AllReadable(outputs[1..])
    ensures OutputsBytes(outputs) == OutputBytes(outputs[0]) + OutputsBytes(outputs[1..])
  {
    hide OutputBytes;
  }

  lemma OneMoreOutput(buf: seq<Byte>, at: nat, n: nat, item: TxOut, next: nat, more: seq<TxOut>)
    requires n > 0 && ReadOutput(buf, at) == Ok(Read(item, next)) && ReadOutputs(buf, next, n - 1) == Ok(more)
    ensures ReadOutputs(buf, at, n) == Ok([item] + more)
  {
    hide ReadOutput;
  }

  lemma {:induction false} OutputsRoundTrip(buf: seq<Byte>, at: nat, outputs: seq<TxOut>)
    requires AllReadable(outputs)
    requires At(buf, at, OutputsBytes(outputs))
    ensures ReadOutputs(buf, at, |outputs|) == Ok(outputs)
    decreases |outputs|
  {
    hide *;
    if outputs == [] {
      assert ReadOutputs(buf, at, 0) == Ok([]) by { NoOutputs(buf, at); }
    } else {
      var head, tail := outputs[0], outputs[1..];
      FirstOutput(outputs);
      var next := at + |OutputBytes(head)|;
      AtConcat(buf, at, OutputBytes(head), OutputsBytes(tail));
      OutputRoundTrip(buf, at, head);
      OutputsRoundTrip(buf, next, tail);
      OneMoreOutput(buf, at, |outputs|, head, next, tail);
    }
  }

  // ----- whole transactions -----

  predicate Readable(inputs: seq<TxIn>, outputs: seq<TxOut>) {
    |inputs| < TWO32 && |outputs| < TWO32 && (forall i :: i in inputs ==> ReadableInput(i))
    && AllReadable(outputs)
  }

  /** The whole transaction as bytes, grouped from the left as the readers meet them. */
  function TxBytes(inputs: seq<TxIn>, outputs: seq<TxOut>, lockTime: int): seq<Byte>
    requires Readable(inputs, outputs)
  {
    LeBytes(1, 4) + (VarintBytes(2 * |inputs|) + (InputsBytes(inputs)
    + (VarintBytes(2 * |outputs|) + (OutputsBytes(outputs) + LeBytes(Low32(lockTime), 4)))))
  }

  lemma {:induction false} SixParts(a: seq<Byte>, b: seq<Byte>, c: seq<Byte>, d: seq<Byte>, e: seq<Byte>, f: seq<Byte>)
    ensures HexOf(a + (b + (c + (d + (e + f))))) == HexOf(a) + HexOf(b) + HexOf(c) + HexOf(d) + HexOf(e) + HexOf(f)
  {
    hide *;
    var t := d + (e + f);
    HexConcat(e, f);
    HexConcat(d, e + f);
    FourParts(a, b, c, t);
    var s := HexOf(a) + HexOf(b) + HexOf(c);
    Associate(s, HexOf(d), HexOf(e) + HexOf(f));
    Associate(s + HexOf(d), HexOf(e), HexOf(f));
  }

  lemma {:induction false} TxHexIsBytes(inputs: seq<TxIn>, outputs: seq<TxOut>, lockTime: int)
    requires Readable(inputs, outputs)
    ensures TxHex(inputs, outputs, lockTime) == HexOf(TxBytes(inputs, outputs, lockTime))
  {
    InputsFront(inputs);
    OutputsFront(outputs);
    hide HexOf, LeBytes, VarintBytes, InputsBytes, OutputsBytes, InputsHex, OutputsHex;
    SixParts(LeBytes(1, 4), VarintBytes(2 * |inputs|), InputsBytes(inputs), VarintBytes(2 * |outputs|), OutputsBytes(outputs),
             LeBytes(Low32(lockTime), 4));
  }

  lemma WholeBuffer(bs: seq<Byte>)
    ensures At(bs, 0, bs)
  {
    assert bs[0..0 + |bs|] == bs;
  }

  /** The four parts of a written transaction that the readers look for. */
  lemma {:induction false} PartsInPlace(inputs: seq<TxIn>, outputs: seq<TxOut>, lockTime: int)
      returns (buf: seq<Byte>, afterCount: nat, afterInputs: nat, afterOutCount: nat)
    requires Readable(inputs, outputs)
    ensures buf == FromHex(TxHex(inputs, outputs, lockTime))
    ensures At(buf, 4, VarintBytes(2 * |inputs|)) && afterCount == 4 + |VarintBytes(2 * |inputs|)|
    ensures At(buf, afterCount, InputsBytes(inputs)) && afterInputs == afterCount + |InputsBytes(inputs)|
    ensures At(buf, afterInputs, VarintBytes(2 * |outputs|)) && afterOutCount == afterInputs + |VarintBytes(2 * |outputs|)|
    ensures At(buf, afterOutCount, OutputsBytes(outputs))
    ensures At(buf, 0, LeBytes(1, 4))
    ensures var end := afterOutCount + |OutputsBytes(outputs)|;
            At(buf, end, LeBytes(Low32(lockTime), 4)) && |buf| == end + 4
  {
    hide HexOf, FromHex, LeBytes, VarintBytes, InputsBytes, OutputsBytes, At, TxHex;
    TxHexIsBytes(inputs, outputs, lockTime);
    buf := TxBytes(inputs, outputs, lockTime);
    HexRoundTrip(buf);
    WholeBuffer(buf);
    var b, c, d, e, f := VarintBytes(2 * |inputs|), InputsBytes(inputs), VarintBytes(2 * |outputs|), OutputsBytes(outputs), LeBytes(Low32(lockTime), 4);
    AtConcat(buf, 0, LeBytes(1, 4), b + (c + (d + (e + f))));
    AtConcat(buf, 4, b, c + (d + (e + f)));
    afterCount := 4 + |b|;
    AtConcat(buf, afterCount, c, d + (e + f));
    afterInputs := afterCount + |c|;
    AtConcat(buf, afterInputs, d, e + f);
    afterOutCount := afterInputs + |d|;
    AtConcat(buf, afterOutCount, e, f);
  }

  /** Parsing a written transaction gives its inputs back, up to the width of the 32-bit fields. */
  lemma {:induction false} ParseInputsOfBuilt(inputs: seq<TxIn>, outputs: seq<TxOut>, lockTime: int)
    requires Readable(inputs, outputs)
    ensures var buf := FromHex(TxHex(inputs, outputs, lockTime));
            ReadVarint(buf, 4).Ok? && ReadVarint(buf, 4).value.item == |inputs| &&
            ReadInputs(buf, ReadVarint(buf, 4).value.next, |inputs|) == Ok(WrappedAll(inputs))
  {
    hide ReadVarint, FromHex, TxHex, At, VarintBytes, InputsBytes, OutputsBytes, ReadInputs, SkipInputs;
    var buf, afterCount, afterInputs, afterOutCount := PartsInPlace(inputs, outputs, lockTime);
    VarintRoundTrip(buf, 4, 2 * |inputs|);
    InputsRoundTrip(buf, afterCount, inputs);
  }

  /** Parsing a written transaction gives exactly its outputs back. */
  lemma {:induction false} ParseOutputsOfBuilt(inputs: seq<TxIn>, outputs: seq<TxOut>, lockTime: int)
    requires Readable(inputs, outputs)
    ensures OutputsOf(FromHex(TxHex(inputs, outputs, lockTime))) == Ok(outputs)
  {
    hide ReadVarint, SkipInputs, ReadOutputs, FromHex, TxHex, At, VarintBytes, InputsBytes, OutputsBytes, ReadInputs;
    var buf, afterCount, afterInputs, afterOutCount := PartsInPlace(inputs, outputs, lockTime);
    VarintRoundTrip(buf, 4, 2 * |inputs|);
    InputsRoundTrip(buf, afterCount, inputs);
    VarintRoundTrip(buf, afterInputs, 2 * |outputs|);
    OutputsRoundTrip(buf, afterOutCount, outputs);
  }

  predicate FitsWidth(i: TxIn) {
    0 <= i.prevVout < TWO32 && 0 <= i.sequence < TWO32
  }

  lemma SameCons<T>(x: T, xs: seq<T>, y: T, ys: seq<T>)
    ensures [x] + xs == [y] + ys <==> x == y && xs == ys
  {
    if [x] + xs == [y] + ys {
      assert ([x] + xs)[0] == ([y] + ys)[0];
      assert ([x] + xs)[1..] == xs && ([y] + ys)[1..] == ys;
    }
  }

  /** The inputs come back unchanged exactly when every index and sequence number fits in 32 bits. */
  lemma {:induction false} UnchangedIffFits(inputs: seq<TxIn>)
    ensures WrappedAll(inputs) == inputs <==> forall i :: i in inputs ==> FitsWidth(i)
  {
    if inputs != [] {
      var head, tail := inputs[0], inputs[1..];
      UnchangedIffFits(tail);
      assert inputs == [head] + tail;
      assert WrappedAll(inputs) == [Wrapped(head)] + WrappedAll(tail);
      assert WrappedAll(inputs) == inputs <==> Wrapped(head) == head && WrappedAll(tail) == tail by {
        SameCons(Wrapped(head), WrappedAll(tail), head, tail);
      }
      assert Wrapped(head) == head <==> FitsWidth(head);
    }
  }

  /** Build, then parse: the round trip on the methods themselves. */
  method BuildAndParse(inputs: seq<TxIn>, outputs: seq<TxOut>, lockTime: int)
      returns (back: Result<seq<TxIn>>, outs: Result<seq<TxOut>>)
    requires Readable(inputs, outputs)
    ensures back == Ok(WrappedAll(inputs)) && outs == Ok(outputs)
    ensures back == Ok(inputs) <==> forall i :: i in inputs ==> FitsWidth(i)
  {
    var hex := BuildUnsignedTx(inputs, outputs, lockTime);
    ParseInputsOfBuilt(inputs, outputs, lockTime);
    ParseOutputsOfBuilt(inputs, outputs, lockTime);
    UnchangedIffFits(inputs);
    hide FromHex, TxHex, ReadVarint, ReadInputs, OutputsOf;
    back := ParseInputs(hex.value);
    outs := ParseOutputs(hex.value);
  }
}
