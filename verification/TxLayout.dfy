/** Where every byte of a built transaction stands. */
module TxLayout {
  import opened Hex
  import opened Numbers
  import opened TxCodec

  // ----- the layout -----

  /** A number of `w` bytes at offset `o`, the lowest byte first. */
  predicate NumberAt(buf: seq<Byte>, o: nat, w: nat, x: nat) {
    o + w <= |buf| && forall k :: 0 <= k < w ==> buf[o + k] == (x / Pow256(k)) % 256
  }

  function LengthSize(n: nat): nat {
    if n < 0xfd then 1 else if n <= 0xffff then 3 else 5
  }

  /** A length at offset `o`, in the shortest of the three forms. */
  predicate LengthAt(buf: seq<Byte>, o: nat, n: nat) {
    && o + LengthSize(n) <= |buf|
    && (n < 0xfd ==> buf[o] == n)
    && (0xfd <= n <= 0xffff ==> buf[o] == 0xfd && NumberAt(buf, o + 1, 2, n))
    && (0xffff < n ==> buf[o] == 0xfe && NumberAt(buf, o + 1, 4, n))
  }

  predicate ReversedAt(buf: seq<Byte>, o: nat, bs: seq<Byte>, k: nat)
    requires k < |bs| && o + |bs| <= |buf|
  {
    buf[o + k] == bs[|bs| - 1 - k]
  }

  /** Transaction id with its bytes reversed, output index, empty script, sequence. */
  predicate InputAt(buf: seq<Byte>, o: nat, i: TxIn) {
    && o + 41 <= |buf| && |FromHex(i.prevTxid)| == 32
    && (forall k :: 0 <= k < 32 ==> ReversedAt(buf, o, FromHex(i.prevTxid), k))
    && NumberAt(buf, o + 32, 4, Low32(i.prevVout)) && buf[o + 36] == 0 && NumberAt(buf, o + 37, 4, Low32(i.sequence))
  }

  /** Amount, script length and script of each output, one after the other up to `end`. */
  predicate OutputsAt(buf: seq<Byte>, o: nat, outputs: seq<TxOut>, end: nat)
    decreases |outputs|
  {
    if outputs == [] then o == end
    else
      var out, script := outputs[0], FromHex(outputs[0].scriptHex);
      var at := o + 8 + LengthSize(|script|);
      && 0 <= out.satoshis && NumberAt(buf, o, 8, out.satoshis)
      && LengthAt(buf, o + 8, |script|) && At(buf, at, script)
      && OutputsAt(buf, at + |script|, outputs[1..], end)
  }

  /** Version 1, the inputs of 41 bytes each, the outputs, and the lock time in the last four bytes. */
  predicate LaidOut(buf: seq<Byte>, inputs: seq<TxIn>, outputs: seq<TxOut>, lockTime: int) {
    var first := 4 + LengthSize(|inputs|);
    var count := first + 41 * |inputs|;
    && |buf| >= 8 && buf[..4] == [1, 0, 0, 0]
    && LengthAt(buf, 4, |inputs|)
    && (forall i :: 0 <= i < |inputs| ==> InputAt(buf, first + 41 * i, inputs[i]))
    && LengthAt(buf, count, |outputs|)
    && OutputsAt(buf, count + LengthSize(|outputs|), outputs, |buf| - 4)
    && NumberAt(buf, |buf| - 4, 4, Low32(lockTime))
  }

  // ----- built transactions are laid out -----

  lemma {:induction false} NumberIsAt(buf: seq<Byte>, o: nat, w: nat, x: nat)
    requires At(buf, o, LeBytes(x, w))
    ensures NumberAt(buf, o, w, x)
  {
    forall k | 0 <= k < w ensures buf[o + k] == (x / Pow256(k)) % 256 {
      LeBytesAt(x, w, k);
      assert buf[o..o + w][k] == buf[o + k];
    }
  }

  lemma {:induction false} LengthIsAt(buf: seq<Byte>, o: nat, n: nat)
    requires n < TWO32 && At(buf, o, VarintBytes(2 * n))
    ensures LengthAt(buf, o, n) && |VarintBytes(2 * n)| == LengthSize(n)
  {
    if n < 0xfd {
      assert buf[o..o + 1][0] == buf[o];
    } else {
      var tag, w := if n <= 0xffff then 0xfd else 0xfe, if n <= 0xffff then 2 else 4;
      AtConcat(buf, o, [tag], LeBytes(n, w));
      assert buf[o..o + 1][0] == buf[o];
      NumberIsAt(buf, o + 1, w, n);
    }
  }

  lemma {:induction false} InputIsAt(buf: seq<Byte>, o: nat, i: TxIn)
    requires ReadableInput(i) && At(buf, o, InputBytes(i))
    ensures InputAt(buf, o, i) && |InputBytes(i)| == 41
  {
    var txid, bytes := Reverse(FromHex(i.prevTxid)), FromHex(i.prevTxid);
    var vout, empty, sequence := LeBytes(Low32(i.prevVout), 4), VarintBytes(0), LeBytes(Low32(i.sequence), 4);
    HexBack(i.prevTxid);
    assert empty == [0];
    AtConcat(buf, o, txid, vout + (empty + sequence));
    AtConcat(buf, o + 32, vout, empty + sequence);
    AtConcat(buf, o + 36, empty, sequence);
    assert buf[o + 36..o + 37][0] == buf[o + 36];
    hide LeBytes, FromHex, VarintBytes, Reverse, NumberAt, Low32;
    NumberIsAt(buf, o + 32, 4, Low32(i.prevVout));
    NumberIsAt(buf, o + 37, 4, Low32(i.sequence));
    TxidIsAt(buf, o, bytes);
  }

  lemma {:induction false} TxidIsAt(buf: seq<Byte>, o: nat, bytes: seq<Byte>)
    requires At(buf, o, Reverse(bytes))
    ensures o + |bytes| <= |buf| && forall k :: 0 <= k < |bytes| ==> ReversedAt(buf, o, bytes, k)
  {
    forall k | 0 <= k < |bytes| ensures ReversedAt(buf, o, bytes, k) {
      ReverseAt(bytes, k);
      assert buf[o..o + |bytes|][k] == buf[o + k];
    }
  }

  lemma {:induction false} ReverseAt(bs: seq<Byte>, k: nat)
    requires k < |bs|
    ensures Reverse(bs)[k] == bs[|bs| - 1 - k]
  {
    if k < |bs| - 1 {
      ReverseAt(bs[1..], k);
    }
  }

  lemma {:induction false} InputsAreAt(buf: seq<Byte>, o: nat, inputs: seq<TxIn>, i: nat)
    requires (forall x :: x in inputs ==> ReadableInput(x)) && At(buf, o, InputsBytes(inputs)) && i < |inputs|
    ensures InputAt(buf, o + 41 * i, inputs[i])
    decreases |inputs|
  {
    hide *;
    FirstInput(inputs);
    AtConcat(buf, o, InputBytes(inputs[0]), InputsBytes(inputs[1..]));
    InputIsAt(buf, o, inputs[0]);
    if i > 0 {
      InputsAreAt(buf, o + 41, inputs[1..], i - 1);
    }
  }

  lemma {:induction false} InputsSize(inputs: seq<TxIn>)
    requires forall x :: x in inputs ==> ReadableInput(x)
    ensures |InputsBytes(inputs)| == 41 * |inputs|
  {
    if inputs != [] {
      var bytes := InputBytes(inputs[0]);
      assert At(bytes, 0, bytes) by { WholeBuffer(bytes); }
      InputIsAt(bytes, 0, inputs[0]);
      InputsSize(inputs[1..]);
      hide InputBytes;
    }
  }

  lemma {:induction false} OutputIsAt(buf: seq<Byte>, o: nat, out: TxOut)
    requires ReadableOutput(out) && At(buf, o, OutputBytes(out))
    ensures var script := FromHex(out.scriptHex);
            && NumberAt(buf, o, 8, out.satoshis) && LengthAt(buf, o + 8, |script|)
            && At(buf, o + 8 + LengthSize(|script|), script)
            && |OutputBytes(out)| == 8 + LengthSize(|script|) + |script|
  {
    HexBack(out.scriptHex);
    var sats, length, script := LeBytes(out.satoshis, 8), VarintBytes(|out.scriptHex|), FromHex(out.scriptHex);
    assert 2 * |script| == |out.scriptHex|;
    hide LeBytes, VarintBytes, FromHex, NumberAt, LengthAt, LowerHex, NearestNumber;
    AtConcat(buf, o, sats, length + script);
    AtConcat(buf, o + 8, length, script);
    NumberIsAt(buf, o, 8, out.satoshis);
    LengthIsAt(buf, o + 8, |script|);
  }

  lemma OutputsCons(buf: seq<Byte>, o: nat, outputs: seq<TxOut>, end: nat)
    requires outputs != [] && 0 <= outputs[0].satoshis
    requires var script := FromHex(outputs[0].scriptHex);
             && NumberAt(buf, o, 8, outputs[0].satoshis) && LengthAt(buf, o + 8, |script|)
             && At(buf, o + 8 + LengthSize(|script|), script)
             && OutputsAt(buf, o + 8 + LengthSize(|script|) + |script|, outputs[1..], end)
    ensures OutputsAt(buf, o, outputs, end)
  {
    hide NumberAt, LengthAt, At, FromHex, LengthSize;
  }

  lemma {:induction false} OutputsAreAt(buf: seq<Byte>, o: nat, outputs: seq<TxOut>)
    requires AllReadable(outputs) && At(buf, o, OutputsBytes(outputs))
    ensures OutputsAt(buf, o, outputs, o + |OutputsBytes(outputs)|)
    decreases |outputs|
  {
    hide *;
    if outputs == [] {
      NoOutputsAt(buf, o);
    } else {
      FirstOutput(outputs);
      var head, tail := OutputBytes(outputs[0]), OutputsBytes(outputs[1..]);
      AtConcat(buf, o, head, tail);
      OutputIsAt(buf, o, outputs[0]);
      OutputsAreAt(buf, o + |head|, outputs[1..]);
      NotNegative(outputs[0]);
      OutputsCons(buf, o, outputs, o + |head| + |tail|);
    }
  }

  lemma NoOutputsAt(buf: seq<Byte>, o: nat)
    ensures OutputsAt(buf, o, [], o) && OutputsBytes([]) == []
  {
  }

  lemma NotNegative(out: TxOut)
    requires Writable(out)
    ensures out.satoshis >= 0
  {
  }

  /** Every byte of a built transaction stands where the wire format has it, and there are no others. */
  lemma {:induction false} BuiltIsLaidOut(inputs: seq<TxIn>, outputs: seq<TxOut>, lockTime: int)
    requires Readable(inputs, outputs)
    ensures LaidOut(FromHex(TxHex(inputs, outputs, lockTime)), inputs, outputs, lockTime)
  {
    var buf, afterCount, afterInputs, afterOutCount := PartsInPlace(inputs, outputs, lockTime);
    assert |inputs| < TWO32 && |outputs| < TWO32 && (forall x :: x in inputs ==> ReadableInput(x)) && AllReadable(outputs);
    VersionOne(buf);
    hide *;
    PartsLaidOut(buf, inputs, outputs, lockTime, afterCount, afterInputs, afterOutCount);
  }

  lemma {:induction false} PartsLaidOut(buf: seq<Byte>, inputs: seq<TxIn>, outputs: seq<TxOut>, lockTime: int,
                                        afterCount: nat, afterInputs: nat, afterOutCount: nat)
    requires |inputs| < TWO32 && |outputs| < TWO32 && (forall x :: x in inputs ==> ReadableInput(x)) && AllReadable(outputs)
    requires |buf| >= 8 && buf[..4] == [1, 0, 0, 0]
    requires At(buf, 4, VarintBytes(2 * |inputs|)) && afterCount == 4 + |VarintBytes(2 * |inputs|)|
    requires At(buf, afterCount, InputsBytes(inputs)) && afterInputs == afterCount + |InputsBytes(inputs)|
    requires At(buf, afterInputs, VarintBytes(2 * |outputs|)) && afterOutCount == afterInputs + |VarintBytes(2 * |outputs|)|
    requires At(buf, afterOutCount, OutputsBytes(outputs)) && afterOutCount + |OutputsBytes(outputs)| == |buf| - 4
    requires At(buf, |buf| - 4, LeBytes(Low32(lockTime), 4))
    ensures LaidOut(buf, inputs, outputs, lockTime)
  {
    hide *;
    LengthIsAt(buf, 4, |inputs|);
    InputsSize(inputs);
    LengthIsAt(buf, afterInputs, |outputs|);
    OutputsAreAt(buf, afterOutCount, outputs);
    NumberIsAt(buf, |buf| - 4, 4, Low32(lockTime));
    forall i | 0 <= i < |inputs| ensures InputAt(buf, afterCount + 41 * i, inputs[i]) {
      InputsAreAt(buf, afterCount, inputs, i);
    }
    Assemble(buf, inputs, outputs, lockTime);
  }

  lemma VersionOne(buf: seq<Byte>)
    requires At(buf, 0, LeBytes(1, 4))
    ensures buf[..4] == [1, 0, 0, 0]
  {
    assert LeBytes(1, 4) == [1, 0, 0, 0];
    assert buf[0..0 + 4] == buf[..4];
  }

  lemma Assemble(buf: seq<Byte>, inputs: seq<TxIn>, outputs: seq<TxOut>, lockTime: int)
    requires |buf| >= 8 && buf[..4] == [1, 0, 0, 0] && LengthAt(buf, 4, |inputs|)
    requires forall i :: 0 <= i < |inputs| ==> InputAt(buf, 4 + LengthSize(|inputs|) + 41 * i, inputs[i])
    requires LengthAt(buf, 4 + LengthSize(|inputs|) + 41 * |inputs|, |outputs|)
    requires OutputsAt(buf, 4 + LengthSize(|inputs|) + 41 * |inputs| + LengthSize(|outputs|), outputs, |buf| - 4)
    requires NumberAt(buf, |buf| - 4, 4, Low32(lockTime))
    ensures LaidOut(buf, inputs, outputs, lockTime)
  {
    hide LengthAt, InputAt, OutputsAt, NumberAt;
  }
}
