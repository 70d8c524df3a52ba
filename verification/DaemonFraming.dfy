/** How stdout is cut into chunks does not matter: framing of the daemon's output. */
module DaemonFraming {
  import opened Collections
  import opened Daemon

  lemma {:induction false} NewlineIsFirst(s: string)
    ensures var i := NewlineAt(s);
            if i < 0 then '\n' !in s else s[i] == '\n' && '\n' !in s[..i]
  {
    if s != "" && s[0] != '\n' {
      NewlineIsFirst(s[1..]);
      assert s == [s[0]] + s[1..];
      var i := NewlineAt(s[1..]);
      if i >= 0 {
        assert s[..i + 1] == [s[0]] + s[1..][..i];
      }
    }
  }

  /** The complete lines of a text, without their newlines. */
  function LinesOf(text: string): seq<string>
    decreases |text|
  {
    var nl := NewlineAt(text);
    if nl < 0 then [] else [text[..nl]] + LinesOf(text[nl + 1..])
  }

  /** The text after the last newline. */
  function Rest(text: string): string
    decreases |text|
  {
    var nl := NewlineAt(text);
    if nl < 0 then text else Rest(text[nl + 1..])
  }

  function Unlines(lines: seq<string>): string {
    if lines == [] then "" else lines[0] + "\n" + Unlines(lines[1..])
  }

  lemma NoLines()
    ensures Unlines([]) == ""
  {
  }

  /** Lines and rest are the one way to cut a text at its newlines. */
  lemma {:induction false} LinesAndRest(text: string)
    ensures text == Unlines(LinesOf(text)) + Rest(text)
    ensures '\n' !in Rest(text) && forall line :: line in LinesOf(text) ==> '\n' !in line
    decreases |text|
  {
    NewlineIsFirst(text);
    NoLines();
    hide *;
    var nl := NewlineAt(text);
    NextLine(text);
    if nl >= 0 {
      LinesAndRest(text[nl + 1..]);
      var lines := LinesOf(text[nl + 1..]);
      CutLine(text, nl, lines, Rest(text));
    } else {
      assert text == "" + text;
    }
  }

  lemma {:induction false} NextLine(text: string)
    ensures var nl := NewlineAt(text);
            if nl < 0 then LinesOf(text) == [] && Rest(text) == text
            else LinesOf(text) == [text[..nl]] + LinesOf(text[nl + 1..]) && Rest(text) == Rest(text[nl + 1..])
  {
    hide NewlineAt;
  }

  lemma {:induction false} CutLine(text: string, nl: nat, lines: seq<string>, rest: string)
    requires nl < |text| && text[nl] == '\n' && text[nl + 1..] == Unlines(lines) + rest
    ensures text == Unlines([text[..nl]] + lines) + rest
  {
    var u := Unlines(lines);
    assert ([text[..nl]] + lines)[1..] == lines;
    hide Unlines;
    assert text[..nl] + "\n" + u + rest == text[..nl] + "\n" + (u + rest);
    assert text == text[..nl] + "\n" + text[nl + 1..];
  }

  function DeliverAll(decode: string -> Decoded, c: Client, lines: seq<string>): Client
    decreases lines
  {
    if lines == [] || c.crashed then c else DeliverAll(decode, Deliver(decode, c, Trim(lines[0])), lines[1..])
  }

  /** Draining delivers exactly the complete lines, in order, and keeps exactly the text after the
      last newline, unless a line crashes the callback. */
  lemma {:induction false} DrainDelivers(decode: string -> Decoded, s: State)
    ensures var drained := Drain(decode, s);
            drained.client == DeliverAll(decode, s.client, LinesOf(s.buffer)) &&
            (!drained.client.crashed ==> drained.buffer == Rest(s.buffer))
    decreases |s.buffer|
  {
    hide Deliver, Trim;
    var nl := NewlineAt(s.buffer);
    if nl >= 0 && !s.client.crashed {
      DrainDelivers(decode, State(s.buffer[nl + 1..], Deliver(decode, s.client, Trim(s.buffer[..nl]))));
    }
  }

  lemma {:induction false} DrainAppend(decode: string -> Decoded, s: State, more: string)
    ensures var first, whole := Drain(decode, s), Drain(decode, State(s.buffer + more, s.client));
            whole == if first.client.crashed then State(first.buffer + more, first.client)
                     else Drain(decode, State(first.buffer + more, first.client))
    decreases |s.buffer|
  {
    var nl := NewlineAt(s.buffer);
    if nl >= 0 && !s.client.crashed {
      hide *;
      var text := s.buffer + more;
      var tail, client := s.buffer[nl + 1..], Deliver(decode, s.client, Trim(s.buffer[..nl]));
      NewlineAppend(s.buffer, more);
      assert text[..nl] == s.buffer[..nl] && text[nl + 1..] == tail + more;
      DrainOnce(decode, s, nl);
      DrainOnce(decode, State(text, s.client), nl);
      DrainAppend(decode, State(tail, client), more);
    }
  }

  lemma {:induction false} NewlineAppend(s: string, more: string)
    requires NewlineAt(s) >= 0
    ensures NewlineAt(s + more) == NewlineAt(s)
  {
    assert (s + more)[0] == s[0] && (s + more)[1..] == s[1..] + more;
    if s[0] != '\n' {
      NewlineAppend(s[1..], more);
    }
  }

  function Feed(decode: string -> Decoded, s: State, chunks: seq<string>): State
    decreases chunks
  {
    if chunks == [] || s.client.crashed then s else Feed(decode, Step(decode, s, Chunk(chunks[0])), chunks[1..])
  }

  function Concat(chunks: seq<string>): string {
    if chunks == [] then "" else chunks[0] + Concat(chunks[1..])
  }

  /** Up to the text left unread by a crash. */
  predicate SameOutcome(a: State, b: State) {
    a.client == b.client && (!a.client.crashed ==> a.buffer == b.buffer)
  }

  lemma {:induction false} ChunksAreOneChunk(decode: string -> Decoded, s: State, chunks: seq<string>)
    requires '\n' !in s.buffer && !s.client.crashed
    ensures SameOutcome(Feed(decode, s, chunks), Step(decode, s, Chunk(Concat(chunks))))
    decreases chunks
  {
    hide Deliver, Trim;
    NewlineIsFirst(s.buffer);
    if chunks == [] {
      assert s.buffer + "" == s.buffer;
    } else {
      var more := Concat(chunks[1..]);
      var text := s.buffer + chunks[0];
      var first := Step(decode, s, Chunk(chunks[0]));
      assert text + more == s.buffer + Concat(chunks);
      DrainAppend(decode, State(text, s.client), more);
      DrainDelivers(decode, State(text, s.client));
      LinesAndRest(text);
      hide Drain, Rest;
      if !first.client.crashed {
        ChunksAreOneChunk(decode, first, chunks[1..]);
      }
    }
  }

  /** Any two ways of cutting the same output into chunks have the same effect: the same lines
      handled, the same requests settled, the same buffer. */
  lemma {:induction false} ChunkingIrrelevant(decode: string -> Decoded, s: State, a: seq<string>, b: seq<string>)
    requires '\n' !in s.buffer && !s.client.crashed && Concat(a) == Concat(b)
    ensures SameOutcome(Feed(decode, s, a), Feed(decode, s, b))
  {
    ChunksAreOneChunk(decode, s, a);
    ChunksAreOneChunk(decode, s, b);
  }

  // ----- whole runs -----

  /** All that has arrived on stdout in a run. */
  function Stdout(es: seq<Event>): string {
    if es == [] then ""
    else Stdout(es[..|es| - 1]) + if es[|es| - 1].Chunk? then es[|es| - 1].text else ""
  }

  /** What of a client the framing decides, apart from its requests. */
  datatype Reading = Reading(bannerSeen: bool, handled: seq<string>, crashed: bool)

  function ReadingOf(c: Client): Reading {
    Reading(c.bannerSeen, c.handled, c.crashed)
  }

  lemma {:induction false} DeliverReads(decode: string -> Decoded, c: Client, d: Client, line: string)
    requires ReadingOf(c) == ReadingOf(d)
    ensures ReadingOf(Deliver(decode, c, line)) == ReadingOf(Deliver(decode, d, line))
  {
  }

  lemma {:induction false} DeliverAllReads(decode: string -> Decoded, c: Client, d: Client, lines: seq<string>)
    requires ReadingOf(c) == ReadingOf(d)
    ensures ReadingOf(DeliverAll(decode, c, lines)) == ReadingOf(DeliverAll(decode, d, lines))
    decreases lines
  {
    hide Deliver, Trim;
    if lines != [] && !c.crashed {
      DeliverReads(decode, c, d, Trim(lines[0]));
      DeliverAllReads(decode, Deliver(decode, c, Trim(lines[0])), Deliver(decode, d, Trim(lines[0])), lines[1..]);
    }
  }

  lemma {:induction false} DeliverAllAppend(decode: string -> Decoded, c: Client, a: seq<string>, b: seq<string>)
    ensures DeliverAll(decode, c, a + b) == DeliverAll(decode, DeliverAll(decode, c, a), b)
    decreases a
  {
    hide Deliver, Trim;
    if a == [] {
      assert a + b == b;
    } else if !c.crashed {
      assert (a + b)[1..] == a[1..] + b;
      DeliverAllAppend(decode, Deliver(decode, c, Trim(a[0])), a[1..], b);
    }
  }

  lemma CutBeforeMore(text: string, more: string, nl: nat)
    requires nl < |text|
    ensures (text + more)[..nl] == text[..nl] && (text + more)[nl + 1..] == text[nl + 1..] + more
  {
  }

  lemma LineFirst(text: string, more: string)
    requires NewlineAt(text) >= 0
    ensures var nl := NewlineAt(text);
            LinesOf(text + more) == [text[..nl]] + LinesOf(text[nl + 1..] + more) &&
            Rest(text + more) == Rest(text[nl + 1..] + more)
  {
    hide NewlineAt;
    var nl := NewlineAt(text);
    NewlineAppend(text, more);
    NextLine(text + more);
    CutBeforeMore(text, more, nl);
  }

  /** Text that arrives later only continues the unfinished line. */
  lemma {:induction false} LinesAppend(text: string, more: string)
    ensures LinesOf(text + more) == LinesOf(text) + LinesOf(Rest(text) + more)
    decreases |text|
  {
    hide *;
    var nl := NewlineAt(text);
    NextLine(text);
    if nl < 0 {
      NoLinesBefore(LinesOf(text + more));
    } else {
      var first, tail := text[..nl], text[nl + 1..];
      LinesAppend(tail, more);
      LineFirst(text, more);
      Associate([first], LinesOf(tail), LinesOf(Rest(tail) + more));
    }
  }

  lemma NoLinesBefore(lines: seq<string>)
    ensures [] + lines == lines
  {
  }

  lemma {:induction false} RestAppend(text: string, more: string)
    ensures Rest(text + more) == Rest(Rest(text) + more)
    decreases |text|
  {
    hide *;
    var nl := NewlineAt(text);
    NextLine(text);
    if nl >= 0 {
      RestAppend(text[nl + 1..], more);
      LineFirst(text, more);
    }
  }

  /** The run has read exactly the lines of the output so far. */
  predicate Framed(decode: string -> Decoded, s: State, text: string) {
    ReadingOf(s.client) == ReadingOf(DeliverAll(decode, FRESH, LinesOf(text))) &&
    (!s.client.crashed ==> s.buffer == Rest(text))
  }

  lemma RequestsDontRead(c: Client, e: Event)
    requires !e.Chunk?
    ensures ReadingOf(ClientStep(c, e)) == ReadingOf(c)
  {
  }

  lemma {:induction false} ChunkFraming(decode: string -> Decoded, s: State, text: string, more: string)
    requires Framed(decode, s, text) && !s.client.crashed
    ensures Framed(decode, Step(decode, s, Chunk(more)), text + more)
  {
    hide Deliver, Trim, NewlineAt, Drain, LinesOf, Rest, DeliverAll;
    var lines := LinesOf(Rest(text) + more);
    DrainDelivers(decode, State(s.buffer + more, s.client));
    LinesAppend(text, more);
    RestAppend(text, more);
    DeliverAllAppend(decode, FRESH, LinesOf(text), lines);
    DeliverAllReads(decode, s.client, DeliverAll(decode, FRESH, LinesOf(text)), lines);
  }

  /** In every legal run, however sends, timeouts, stops and exits interleave with the output, the lines
      handled are decided by the whole output alone, and unless a line crashed the callback the buffer
      is the text after the last newline of it. */
  lemma {:induction false} RunFraming(decode: string -> Decoded, es: seq<Event>)
    requires Legal(decode, es)
    ensures Framed(decode, Run(decode, es), Stdout(es))
  {
    if es == [] {
      assert LinesOf("") == [] && Rest("") == "";
    } else {
      hide DeliverAll, Drain, LinesOf, Rest;
      var n := |es| - 1;
      var s, e, text := Run(decode, es[..n]), es[n], Stdout(es[..n]);
      RunFraming(decode, es[..n]);
      if e.Chunk? {
        ChunkFraming(decode, s, text, e.text);
      } else {
        assert text + "" == text;
        RequestsDontRead(s.client, e);
        hide ClientStep;
      }
    }
  }
}
