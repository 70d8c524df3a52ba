/** Requests of the daemon client are settled at most once, and pending exactly while unsettled. */
module DaemonRequests {
  import opened Collections
  import opened Wrappers
  import opened Daemon

  function Ids(log: seq<Settlement>): seq<nat> {
    if log == [] then [] else Ids(log[..|log| - 1]) + [log[|log| - 1].id]
  }

  predicate Issued(c: Client, id: nat) {
    1 <= id < c.nextId
  }

  /** A settlement with a reply answers the request whose id some handled line carried. */
  ghost predicate Genuine(decode: string -> Decoded, handled: seq<string>, x: Settlement) {
    x.verdict.Reply? ==> exists line :: line in handled && decode(line) == Message(Some(x.id), x.verdict.body)
  }

  ghost predicate Consistent(decode: string -> Decoded, c: Client) {
    && c.nextId >= 1
    && NoRepeats(c.pending)
    && NoRepeats(Ids(c.settled))
    && (forall id: nat :: Issued(c, id) <==> id in c.pending || id in Ids(c.settled))
    && (forall id: nat :: !(id in c.pending && id in Ids(c.settled)))
    && (forall x :: x in c.settled ==> Genuine(decode, c.handled, x))
  }

  lemma {:induction false} SettleConsistent(decode: string -> Decoded, c: Client, id: nat, verdict: Verdict)
    requires Consistent(decode, c) && id in c.pending && Genuine(decode, c.handled, Settlement(id, verdict))
    ensures Consistent(decode, Settle(c, id, verdict))
  {
    var d := Settle(c, id, verdict);
    WithoutDistinct(c.pending, id);
    assert d.settled[..|d.settled| - 1] == c.settled;
    assert Ids(d.settled) == Ids(c.settled) + [id];
    hide Ids, Genuine, Without;
    DistinctConcat(Ids(c.settled), [id]);
    hide NoRepeats;
  }

  lemma {:induction false} WithoutDistinct(ids: seq<nat>, id: nat)
    requires NoRepeats(ids)
    ensures NoRepeats(Without(ids, id))
  {
    if ids != [] {
      WithoutDistinct(ids[1..], id);
      assert ids[0] !in ids[1..];
    }
  }

  lemma {:induction false} LineConsistent(decode: string -> Decoded, c: Client, line: string)
    requires Consistent(decode, c)
    ensures Consistent(decode, LineStep(decode, c, line))
  {
    var d := c.(handled := c.handled + [line]);
    forall x | x in d.settled ensures Genuine(decode, d.handled, x) {
      assert Genuine(decode, c.handled, x);
    }
    assert Consistent(decode, d);
    match decode(line)
    case Malformed =>
    case Null =>
    case Message(id, body) =>
      if id.Some? && id.value >= 0 && id.value in c.pending {
        assert line in d.handled;
        SettleConsistent(decode, d, id.value, Reply(body));
      }
  }

  lemma {:induction false} DrainConsistent(decode: string -> Decoded, s: State)
    requires Consistent(decode, s.client)
    ensures Consistent(decode, Drain(decode, s).client)
    decreases |s.buffer|
  {
    var nl := NewlineAt(s.buffer);
    if nl >= 0 && !s.client.crashed {
      var c, line := s.client, Trim(s.buffer[..nl]);
      hide Trim, LineStep, NewlineAt;
      if line != "" {
        LineConsistent(decode, c, line);
        assert Consistent(decode, SeeBanner(c));
        LineConsistent(decode, SeeBanner(c), line);
      }
      DrainConsistent(decode, State(s.buffer[nl + 1..], Deliver(decode, c, line)));
    }
  }

  lemma {:induction false} FailuresIds(ids: seq<nat>)
    ensures Ids(Failures(ids)) == ids
    ensures forall x :: x in Failures(ids) ==> x.verdict == Failed
  {
    if ids != [] {
      FailuresIds(ids[..|ids| - 1]);
      var log := Failures(ids);
      assert log[..|log| - 1] == Failures(ids[..|ids| - 1]);
    }
  }

  lemma {:induction false} IdsConcat(a: seq<Settlement>, b: seq<Settlement>)
    ensures Ids(a + b) == Ids(a) + Ids(b)
  {
    if b == [] {
      assert a + b == a;
    } else {
      IdsConcat(a, b[..|b| - 1]);
      assert (a + b)[..|a + b| - 1] == a + b[..|b| - 1];
    }
  }

  lemma {:induction false} DistinctConcat(a: seq<nat>, b: seq<nat>)
    requires NoRepeats(a) && NoRepeats(b) && forall x :: x in a ==> x !in b
    ensures NoRepeats(a + b)
  {
    forall i, j | 0 <= i < j < |a + b| ensures (a + b)[i] != (a + b)[j] {
      if i < |a| <= j {
        assert a[i] in a && b[j - |a|] in b;
      }
    }
  }

  lemma {:induction false} FailAllConsistent(decode: string -> Decoded, c: Client)
    requires Consistent(decode, c)
    ensures Consistent(decode, FailAllStep(c))
  {
    var log := Failures(c.pending);
    assert NoRepeats(c.pending) && NoRepeats(Ids(c.settled)) && forall x :: x in Ids(c.settled) ==> x !in c.pending;
    FailuresIds(c.pending);
    IdsConcat(c.settled, log);
    DistinctConcat(Ids(c.settled), c.pending);
    FailedGenuine(decode, c.handled, log);
    hide Ids, Failures, Genuine, Consistent, NoRepeats;
    AllSettled(decode, c, log);
  }

  lemma {:induction false} FailedGenuine(decode: string -> Decoded, handled: seq<string>, log: seq<Settlement>)
    requires forall x :: x in log ==> x.verdict == Failed
    ensures forall x :: x in log ==> Genuine(decode, handled, x)
  {
  }

  lemma {:induction false} AllSettled(decode: string -> Decoded, c: Client, log: seq<Settlement>)
    requires Consistent(decode, c) && Ids(c.settled + log) == Ids(c.settled) + c.pending
    requires NoRepeats(Ids(c.settled) + c.pending) && forall x :: x in log ==> Genuine(decode, c.handled, x)
    ensures Consistent(decode, c.(settled := c.settled + log, pending := []))
  {
    var d := c.(settled := c.settled + log, pending := []);
    assert NoRepeats(d.pending);
    hide Ids, Genuine, NoRepeats;
    forall id: nat ensures Issued(d, id) <==> id in d.pending || id in Ids(d.settled) {
      assert Issued(c, id) <==> id in c.pending || id in Ids(c.settled);
    }
  }

  lemma {:induction false} IssueConsistent(decode: string -> Decoded, c: Client)
    requires Consistent(decode, c)
    ensures Consistent(decode, Issue(c))
  {
    var d := Issue(c);
    assert !Issued(c, c.nextId);
    DistinctConcat(c.pending, [c.nextId]);
    hide Ids, Genuine, NoRepeats;
    forall i: nat ensures Issued(d, i) <==> i in d.pending || i in Ids(d.settled) {
      assert Issued(c, i) <==> i in c.pending || i in Ids(c.settled);
    }
  }

  lemma {:induction false} StepConsistent(decode: string -> Decoded, c: Client, e: Event)
    requires Consistent(decode, c) && !e.Chunk?
    ensures Consistent(decode, ClientStep(c, e))
  {
    hide Settle, FailAllStep, Issue;
    match e
    case Send(writeOk) =>
      IssueConsistent(decode, c);
      if !writeOk {
        assert c.nextId in Issue(c).pending by { IssuePends(c); }
        SettleConsistent(decode, Issue(c), c.nextId, WriteFailed);
      }
    case Timeout(id) =>
      if id in c.pending {
        SettleConsistent(decode, c, id, TimedOut);
      }
    case _ => FailAllConsistent(decode, c);
  }

  lemma {:induction false} IssuePends(c: Client)
    ensures c.nextId in Issue(c).pending
  {
  }

  /** In every run of chunks, sends, timeouts, write failures, errors, closes and stops: no request is
      settled twice, a request is pending exactly while it is issued and unsettled, and every reply
      went to the request named in a line that carried it. */
  lemma {:induction false} AlwaysConsistent(decode: string -> Decoded, es: seq<Event>)
    requires Legal(decode, es)
    ensures Consistent(decode, Run(decode, es).client)
  {
    hide Drain, ClientStep;
    if es != [] {
      var s, e := Run(decode, es[..|es| - 1]), es[|es| - 1];
      AlwaysConsistent(decode, es[..|es| - 1]);
      if e.Chunk? {
        DrainConsistent(decode, State(s.buffer + e.text, s.client));
      } else {
        StepConsistent(decode, s.client, e);
      }
    }
  }

  // ----- what a stop leaves behind -----

  /** Events that cannot settle request `id` of a stopped client. */
  predicate Harmless(e: Event, id: nat) {
    !e.Chunk? && !e.ProcessError? && e != Timeout(id)
  }

  lemma {:induction false} HarmlessStep(decode: string -> Decoded, c: Client, e: Event, id: nat)
    requires Consistent(decode, c) && c.stopped && id in c.pending && Harmless(e, id)
    ensures ClientStep(c, e).stopped && id in ClientStep(c, e).pending
  {
    assert Issued(c, id);
    hide Consistent;
  }

  /** `stop` is documented to reject requests in flight. Instead, once a run has stopped the client, a
      request that is pending stays pending, through the exit and whatever else follows, until its own
      timer, a process error or more output. */
  lemma {:induction false} StoppedStaysPending(decode: string -> Decoded, es: seq<Event>, more: seq<Event>, id: nat)
    requires Legal(decode, es + more) && Legal(decode, es)
    requires Run(decode, es).client.stopped && id in Run(decode, es).client.pending
    requires forall e :: e in more ==> Harmless(e, id)
    ensures Run(decode, es + more).client.stopped && id in Run(decode, es + more).client.pending
    ensures id !in Ids(Run(decode, es + more).client.settled)
    decreases more
  {
    AlwaysConsistent(decode, es + more);
    if more == [] {
      assert es + more == es;
    } else {
      var n := |more| - 1;
      assert (es + more)[..|es + more| - 1] == es + more[..n] && (es + more)[|es + more| - 1] == more[n];
      StoppedStaysPending(decode, es, more[..n], id);
      AlwaysConsistent(decode, es + more[..n]);
      assert more[n] in more;
      HarmlessStep(decode, Run(decode, es + more[..n]).client, more[n], id);
    }
  }

  lemma {:induction false} DeliverNeverStops(decode: string -> Decoded, c: Client, line: string)
    ensures Deliver(decode, c, line).stopped == c.stopped
  {
    hide Contains, Without;
  }

  lemma {:induction false} DeliveryNeverStops(decode: string -> Decoded, s: State)
    ensures Drain(decode, s).client.stopped == s.client.stopped
    decreases |s.buffer|
  {
    var nl := NewlineAt(s.buffer);
    if nl >= 0 && !s.client.crashed {
      hide Trim, NewlineAt, Deliver;
      var line := Trim(s.buffer[..nl]);
      DeliverNeverStops(decode, s.client, line);
      DeliveryNeverStops(decode, State(s.buffer[nl + 1..], Deliver(decode, s.client, line)));
    }
  }

  lemma {:induction false} StepStops(decode: string -> Decoded, s: State, e: Event)
    ensures Step(decode, s, e).client.stopped <==> s.client.stopped || e == Stop
  {
    hide Drain, Without, Failures;
    if e.Chunk? {
      DeliveryNeverStops(decode, State(s.buffer + e.text, s.client));
    }
  }

  lemma {:induction false} StoppedIffStop(decode: string -> Decoded, es: seq<Event>)
    ensures Run(decode, es).client.stopped <==> Stop in es
  {
    if es != [] {
      var n := |es| - 1;
      StoppedIffStop(decode, es[..n]);
      hide Step;
      StepStops(decode, Run(decode, es[..n]), es[n]);
      assert es == es[..n] + [es[n]];
    }
  }

  /** A run that ends with the process's exit leaves nothing pending exactly when the client was never
      stopped or nothing was pending at the exit. */
  lemma {:induction false} ExitDrainsIff(decode: string -> Decoded, es: seq<Event>)
    requires es != [] && es[|es| - 1] == Close
    ensures Run(decode, es).client.pending == [] <==>
            Stop !in es || Run(decode, es[..|es| - 1]).client.pending == []
  {
    var n := |es| - 1;
    StoppedIffStop(decode, es[..n]);
    assert es == es[..n] + [Close];
  }

  /** A concrete run that ends with a request nothing but its own timer will ever settle. */
  lemma {:induction false} StopStrandsARequest(decode: string -> Decoded)
    ensures var es := [Chunk(BANNER_LINE), Send(true), Stop, Close];
            Legal(decode, es) && Run(decode, es).client.pending == [1] && Run(decode, es).client.settled == []
  {
    var up := Chunk(BANNER_LINE);
    BannerComesUp(decode);
    RunAppend(decode, [], up);
    assert [] + [up] == [up];
    var ready := SeeBanner(FRESH);
    hide Drain;
    assert Legal(decode, [up]) && Run(decode, [up]) == State("", ready);
    hide Run, Legal;
    RunAppend(decode, [up], Send(true));
    assert [up] + [Send(true)] == [up, Send(true)];
    RunAppend(decode, [up, Send(true)], Stop);
    assert [up, Send(true)] + [Stop] == [up, Send(true), Stop];
    RunAppend(decode, [up, Send(true), Stop], Close);
    assert [up, Send(true), Stop] + [Close] == [up, Send(true), Stop, Close];
  }

  lemma {:induction false} BannerComesUp(decode: string -> Decoded)
    ensures Step(decode, INITIAL, Chunk(BANNER_LINE)) == State("", SeeBanner(FRESH))
  {
    var word := MARKER;
    var text := "" + (word + "\n");
    assert text[..|word|] == word && text[|word| + 1..] == "";
    NewlineAfter(word);
    assert text == word + "\n";
    assert NewlineAt("") == -1;
    assert TrimLeft(word) == word && TrimRight(word) == word;
    assert Deliver(decode, FRESH, Trim(word)) == SeeBanner(FRESH) by {
      assert Contains(word, word);
    }
    hide Deliver, SeeBanner, Trim, NewlineAt;
    DrainOnce(decode, State(text, FRESH), |word|);
    assert "" + BANNER_LINE == text;
  }

  lemma {:induction false} NewlineAfter(word: string)
    requires '\n' !in word
    ensures NewlineAt(word + "\n") == |word|
  {
    if word != "" {
      assert (word + "\n")[1..] == word[1..] + "\n";
      NewlineAfter(word[1..]);
    }
  }

  lemma {:induction false} RunAppend(decode: string -> Decoded, es: seq<Event>, e: Event)
    ensures Run(decode, es + [e]) == Step(decode, Run(decode, es), e)
    ensures Legal(decode, es + [e]) <==> Legal(decode, es) && Enabled(Run(decode, es).client, e)
  {
    assert (es + [e])[..|es + [e]| - 1] == es;
  }
}
