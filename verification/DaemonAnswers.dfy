/** What becomes of every request of the daemon client, and of the promise for its banner. */
module DaemonAnswers {
  import opened Wrappers
  import opened Daemon
  import opened DaemonFraming
  import opened DaemonRequests

  // ----- the lines that are handled -----

  /** A line handed to the reply handler, and the client just before. */
  datatype Handling = Handling(before: Client, line: string)

  /** Blank lines are skipped, and the first other line if it announces the daemon. */
  function Heard(c: Client, line: string): seq<Handling> {
    if line == "" || (!c.bannerSeen && Contains(line, MARKER)) then []
    else [Handling(if c.bannerSeen then c else SeeBanner(c), line)]
  }

  function DrainHeard(decode: string -> Decoded, s: State): seq<Handling>
    decreases |s.buffer|
  {
    var nl := NewlineAt(s.buffer);
    if nl < 0 || s.client.crashed then []
    else
      var line := Trim(s.buffer[..nl]);
      Heard(s.client, line) + DrainHeard(decode, State(s.buffer[nl + 1..], Deliver(decode, s.client, line)))
  }

  function RunHeard(decode: string -> Decoded, es: seq<Event>): seq<Handling> {
    if es == [] then []
    else
      var s, e := Run(decode, es[..|es| - 1]), es[|es| - 1];
      RunHeard(decode, es[..|es| - 1]) + if e.Chunk? then DrainHeard(decode, State(s.buffer + e.text, s.client)) else []
  }

  function LinesHeard(hs: seq<Handling>): seq<string> {
    seq(|hs|, i requires 0 <= i < |hs| => hs[i].line)
  }

  lemma {:induction false} DrainHandles(decode: string -> Decoded, s: State)
    ensures Drain(decode, s).client.handled == s.client.handled + LinesHeard(DrainHeard(decode, s))
    decreases |s.buffer|
  {
    hide Contains, Trim, NewlineAt, Without;
    var nl := NewlineAt(s.buffer);
    if nl >= 0 && !s.client.crashed {
      var line := Trim(s.buffer[..nl]);
      var next := State(s.buffer[nl + 1..], Deliver(decode, s.client, line));
      DrainHandles(decode, next);
      DeliverHandles(decode, s.client, line);
      assert LinesHeard(Heard(s.client, line) + DrainHeard(decode, next)) ==
             LinesHeard(Heard(s.client, line)) + LinesHeard(DrainHeard(decode, next));
    }
  }

  lemma {:induction false} DeliverHandles(decode: string -> Decoded, c: Client, line: string)
    ensures Deliver(decode, c, line).handled == c.handled + LinesHeard(Heard(c, line))
  {
    hide Contains, Without;
  }

  /** The lines heard are the lines that the client records as handled. */
  lemma {:induction false} HeardIsHandled(decode: string -> Decoded, es: seq<Event>)
    ensures LinesHeard(RunHeard(decode, es)) == Run(decode, es).client.handled
  {
    hide Drain, DrainHeard, Without, Failures;
    if es != [] {
      var n := |es| - 1;
      HeardIsHandled(decode, es[..n]);
      var s := Run(decode, es[..n]);
      if es[n].Chunk? {
        DrainHandles(decode, State(s.buffer + es[n].text, s.client));
      }
    }
  }

  // ----- what settles a request -----

  /** Some line carried this reply while its request was pending. */
  ghost predicate AnsweredBy(decode: string -> Decoded, hs: seq<Handling>, id: nat, body: string) {
    exists h :: h in hs && id in h.before.pending && decode(h.line) == Message(Some(id), body)
  }

  lemma AnsweredByConcat(decode: string -> Decoded, a: seq<Handling>, b: seq<Handling>, id: nat, body: string)
    ensures AnsweredBy(decode, a + b, id, body) <==> AnsweredBy(decode, a, id, body) || AnsweredBy(decode, b, id, body)
  {
  }

  ghost predicate Replied(decode: string -> Decoded, hs: seq<Handling>, x: Settlement) {
    x.verdict.Reply? && AnsweredBy(decode, hs, x.id, x.verdict.body)
  }

  lemma {:induction false} DeliverSettles(decode: string -> Decoded, c: Client, line: string, x: Settlement)
    ensures x in Deliver(decode, c, line).settled <==> x in c.settled || Replied(decode, Heard(c, line), x)
  {
    hide Contains, Without;
    var hs := Heard(c, line);
    if hs != [] {
      assert hs[0] in hs && forall h :: h in hs ==> h == hs[0];
    }
  }

  lemma {:induction false} DrainSettles(decode: string -> Decoded, s: State, x: Settlement)
    ensures x in Drain(decode, s).client.settled <==> x in s.client.settled || Replied(decode, DrainHeard(decode, s), x)
    decreases |s.buffer|
  {
    var nl := NewlineAt(s.buffer);
    hide Contains, Trim, NewlineAt, Deliver, Heard, AnsweredBy;
    if nl >= 0 && !s.client.crashed {
      var line := Trim(s.buffer[..nl]);
      var next := State(s.buffer[nl + 1..], Deliver(decode, s.client, line));
      DrainSettles(decode, next, x);
      DeliverSettles(decode, s.client, line, x);
      if x.verdict.Reply? {
        AnsweredByConcat(decode, Heard(s.client, line), DrainHeard(decode, next), x.id, x.verdict.body);
      }
    } else {
      NothingHeard(decode, x);
    }
  }

  lemma NothingHeard(decode: string -> Decoded, x: Settlement)
    ensures !Replied(decode, [], x)
  {
  }

  function Sends(es: seq<Event>): nat {
    if es == [] then 0 else Sends(es[..|es| - 1]) + if es[|es| - 1].Send? then 1 else 0
  }

  /** Requests are numbered by the order in which they are sent. */
  lemma {:induction false} NextIdCounts(decode: string -> Decoded, es: seq<Event>)
    ensures Run(decode, es).client.nextId == 1 + Sends(es)
  {
    hide Drain, Without, Failures;
    if es != [] {
      var n := |es| - 1;
      NextIdCounts(decode, es[..n]);
      if es[n].Chunk? {
        var s := Run(decode, es[..n]);
        DrainIssuesNothing(decode, State(s.buffer + es[n].text, s.client));
      }
    }
  }

  lemma {:induction false} DrainIssuesNothing(decode: string -> Decoded, s: State)
    ensures Drain(decode, s).client.nextId == s.client.nextId
    decreases |s.buffer|
  {
    hide Contains, Trim, NewlineAt, Without;
    var nl := NewlineAt(s.buffer);
    if nl >= 0 && !s.client.crashed {
      DrainIssuesNothing(decode, State(s.buffer[nl + 1..], Deliver(decode, s.client, Trim(s.buffer[..nl]))));
    }
  }

  function PendingBefore(decode: string -> Decoded, es: seq<Event>, k: nat): seq<nat>
    requires k < |es|
  {
    Run(decode, es[..k]).client.pending
  }

  /** Event k is an error of the process, or its exit while the client has not been stopped. */
  predicate Fails(es: seq<Event>, k: nat)
    requires k < |es|
  {
    es[k] == ProcessError || (es[k] == Close && Stop !in es[..k])
  }

  /** Event k ends a request by itself: its timer, its own failed write, or a failure of the process. */
  predicate EndedAt(decode: string -> Decoded, es: seq<Event>, k: nat, x: Settlement)
    requires k < |es|
  {
    match x.verdict
    case Reply(_) => false
    case TimedOut => es[k] == Timeout(x.id) && x.id in PendingBefore(decode, es, k)
    case WriteFailed => es[k] == Send(false) && x.id == 1 + Sends(es[..k])
    case Failed => Fails(es, k) && x.id in PendingBefore(decode, es, k)
  }

  lemma {:induction false} FailuresAre(ids: seq<nat>, x: Settlement)
    ensures x in Failures(ids) <==> x.verdict == Failed && x.id in ids
  {
    if ids != [] {
      FailuresAre(ids[..|ids| - 1], x);
      assert ids == ids[..|ids| - 1] + [ids[|ids| - 1]];
    }
  }

  /** What an event other than output settles. */
  predicate EndedBy(c: Client, e: Event, x: Settlement) {
    match x.verdict
    case Reply(_) => false
    case TimedOut => e == Timeout(x.id) && x.id in c.pending
    case WriteFailed => e == Send(false) && x.id == c.nextId
    case Failed => (e == ProcessError || (e == Close && !c.stopped)) && x.id in c.pending
  }

  lemma {:induction false} ClientStepSettles(c: Client, e: Event, x: Settlement)
    requires !e.Chunk?
    ensures x in ClientStep(c, e).settled <==> x in c.settled || EndedBy(c, e, x)
  {
    FailuresAre(c.pending, x);
    hide Without, Failures;
  }

  lemma {:induction false} LastEventSettles(decode: string -> Decoded, es: seq<Event>, x: Settlement)
    requires es != [] && !es[|es| - 1].Chunk?
    ensures var n := |es| - 1;
            x in Run(decode, es).client.settled <==> x in Run(decode, es[..n]).client.settled || EndedAt(decode, es, n, x)
  {
    var n := |es| - 1;
    var c := Run(decode, es[..n]).client;
    NextIdCounts(decode, es[..n]);
    StoppedIffStop(decode, es[..n]);
    ClientStepSettles(c, es[n], x);
    assert Run(decode, es).client == ClientStep(c, es[n]);
    hide Run, ClientStep, Sends;
  }

  lemma {:induction false} LastChunkSettles(decode: string -> Decoded, es: seq<Event>, x: Settlement)
    requires es != [] && es[|es| - 1].Chunk?
    ensures var n := |es| - 1;
            var s := Run(decode, es[..n]);
            var more := DrainHeard(decode, State(s.buffer + es[n].text, s.client));
            && (x in Run(decode, es).client.settled <==> x in s.client.settled || Replied(decode, more, x))
            && (Replied(decode, RunHeard(decode, es), x) <==> Replied(decode, RunHeard(decode, es[..n]), x) || Replied(decode, more, x))
  {
    var n := |es| - 1;
    var s := Run(decode, es[..n]);
    var more := DrainHeard(decode, State(s.buffer + es[n].text, s.client));
    DrainSettles(decode, State(s.buffer + es[n].text, s.client), x);
    assert RunHeard(decode, es) == RunHeard(decode, es[..n]) + more;
    assert Run(decode, es) == Drain(decode, State(s.buffer + es[n].text, s.client));
    hide Run, RunHeard, Drain, DrainHeard, AnsweredBy;
    if x.verdict.Reply? {
      AnsweredByConcat(decode, RunHeard(decode, es[..n]), more, x.id, x.verdict.body);
    }
  }

  lemma SameEnd(decode: string -> Decoded, es: seq<Event>, n: nat, k: nat, x: Settlement)
    requires k < n <= |es|
    ensures EndedAt(decode, es[..n], k, x) <==> EndedAt(decode, es, k, x)
  {
    assert es[..n][..k] == es[..k];
  }

  ghost predicate Ended(decode: string -> Decoded, es: seq<Event>, x: Settlement) {
    exists k :: 0 <= k < |es| && EndedAt(decode, es, k, x)
  }

  lemma {:induction false} EndedLast(decode: string -> Decoded, es: seq<Event>, x: Settlement)
    requires es != []
    ensures var n := |es| - 1; Ended(decode, es, x) <==> Ended(decode, es[..n], x) || EndedAt(decode, es, n, x)
    ensures es[|es| - 1].Chunk? || x.verdict.Reply? ==> !EndedAt(decode, es, |es| - 1, x)
  {
    var n := |es| - 1;
    assert es[n].Chunk? || x.verdict.Reply? ==> !EndedAt(decode, es, n, x);
    hide EndedAt;
    forall k | 0 <= k < n ensures EndedAt(decode, es[..n], k, x) <==> EndedAt(decode, es, k, x) {
      SameEnd(decode, es, n, k, x);
    }
  }

  /** Every settlement has exactly one of these causes, and every such cause settles: a reply was carried by a
      handled line while the request was pending; its timer ran out while it was pending; the write that
      sent it failed; the process failed while it was pending. */
  lemma {:induction false} SettledExactly(decode: string -> Decoded, es: seq<Event>, x: Settlement)
    ensures x in Run(decode, es).client.settled <==> Replied(decode, RunHeard(decode, es), x) || Ended(decode, es, x)
  {
    if es == [] {
      NothingHeard(decode, x);
    } else {
      var n := |es| - 1;
      assert !es[n].Chunk? ==> RunHeard(decode, es) == RunHeard(decode, es[..n]) + [] == RunHeard(decode, es[..n]);
      hide *;
      SettledExactly(decode, es[..n], x);
      EndedLast(decode, es, x);
      if es[n].Chunk? {
        LastChunkSettles(decode, es, x);
      } else {
        LastEventSettles(decode, es, x);
      }
    }
  }

  /** A request that was answered, timed out or failed is pending no more. */
  lemma {:induction false} SettledIsOver(decode: string -> Decoded, es: seq<Event>, x: Settlement)
    requires Legal(decode, es) && x in Run(decode, es).client.settled
    ensures x.id !in Run(decode, es).client.pending
    ensures forall y :: y in Run(decode, es).client.settled && y.id == x.id ==> y == x
  {
    AlwaysConsistent(decode, es);
    var settled := Run(decode, es).client.settled;
    IdsAre(settled);
    hide Run, Legal, Ids;
    forall y | y in settled && y.id == x.id ensures y == x {
      var i :| 0 <= i < |settled| && settled[i] == x;
      var j :| 0 <= j < |settled| && settled[j] == y;
      assert Ids(settled)[i] == Ids(settled)[j];
    }
  }

  lemma {:induction false} IdsAre(log: seq<Settlement>)
    ensures |Ids(log)| == |log| && forall i :: 0 <= i < |log| ==> Ids(log)[i] == log[i].id
  {
    if log != [] {
      IdsAre(log[..|log| - 1]);
    }
  }

  // ----- the banner -----

  /** Output with nothing but blank lines, not counting an unfinished one. */
  predicate Quiet(text: string) {
    forall line :: line in LinesOf(text) ==> Trim(line) == ""
  }

  lemma {:induction false} SeenIff(decode: string -> Decoded, c: Client, lines: seq<string>)
    requires !c.crashed || c.bannerSeen
    ensures DeliverAll(decode, c, lines).bannerSeen <==> c.bannerSeen || exists line :: line in lines && Trim(line) != ""
    decreases lines
  {
    hide Contains, Trim, Without;
    if lines != [] && !c.crashed {
      var next := Deliver(decode, c, Trim(lines[0]));
      SeenIff(decode, next, lines[1..]);
      assert next.bannerSeen <==> c.bannerSeen || Trim(lines[0]) != "";
      assert lines == [lines[0]] + lines[1..];
    }
  }

  lemma {:induction false} SeenUnlessQuiet(decode: string -> Decoded, es: seq<Event>)
    requires Legal(decode, es)
    ensures Run(decode, es).client.bannerSeen <==> !Quiet(Stdout(es))
  {
    RunFraming(decode, es);
    SeenIff(decode, FRESH, LinesOf(Stdout(es)));
    hide Run, Legal, Stdout, LinesOf, DeliverAll, Trim;
  }

  /** Handling output resolves a promise that waits, as soon as the banner is seen, and touches no other. */
  lemma {:induction false} DrainBanner(decode: string -> Decoded, s: State)
    requires s.client.bannerSeen ==> s.client.banner != Waiting
    ensures var d := Drain(decode, s).client;
            d.banner == if s.client.banner == Waiting && d.bannerSeen then Up else s.client.banner
    ensures s.client.bannerSeen ==> Drain(decode, s).client.bannerSeen
    decreases |s.buffer|
  {
    hide Contains, Trim, NewlineAt, Without;
    var nl := NewlineAt(s.buffer);
    if nl >= 0 && !s.client.crashed {
      DrainBanner(decode, State(s.buffer[nl + 1..], Deliver(decode, s.client, Trim(s.buffer[..nl]))));
    }
  }

  lemma ClientStepBanner(c: Client, e: Event)
    requires !e.Chunk? && (c.bannerSeen ==> c.banner != Waiting)
    ensures ClientStep(c, e).banner ==
            if c.banner == Waiting && (e == BannerTimeout || e == ProcessError || (e == Close && !c.stopped)) then Down else c.banner
  {
    hide Without, Failures;
  }

  /** Event k gives up on the banner: its own timer, or a failure of the process. */
  predicate GivesUp(es: seq<Event>, k: nat)
    requires k < |es|
  {
    es[k] == BannerTimeout || Fails(es, k)
  }

  /** Some event gave up on the banner before any line that is not blank. */
  predicate GivenUp(es: seq<Event>) {
    exists k :: 0 <= k < |es| && GivesUp(es, k) && Quiet(Stdout(es[..k]))
  }

  lemma {:induction false} GivenUpLast(es: seq<Event>)
    requires es != []
    ensures var n := |es| - 1; GivenUp(es) <==> GivenUp(es[..n]) || (GivesUp(es, n) && Quiet(Stdout(es[..n])))
  {
    var n := |es| - 1;
    hide Quiet, Stdout;
    forall k | 0 <= k < n ensures GivesUp(es[..n], k) == GivesUp(es, k) && es[..n][..k] == es[..k] {
      assert es[..n][..k] == es[..k];
    }
  }

  lemma {:induction false} QuietBefore(es: seq<Event>)
    requires es != []
    ensures Quiet(Stdout(es)) ==> Quiet(Stdout(es[..|es| - 1]))
    ensures !es[|es| - 1].Chunk? ==> Stdout(es) == Stdout(es[..|es| - 1])
  {
    var text := Stdout(es[..|es| - 1]);
    var e := es[|es| - 1];
    assert Stdout(es) == text + if e.Chunk? then e.text else "";
    assert text + "" == text;
    hide Stdout, LinesOf, Trim;
    if e.Chunk? {
      LinesAppend(text, e.text);
    }
  }

  /** The promise for the banner is rejected exactly when its timer ran out or the process failed before the
      first line that is not blank, and resolved exactly when that line came first. */
  lemma {:induction false} BannerOutcome(decode: string -> Decoded, es: seq<Event>)
    requires Legal(decode, es)
    ensures Run(decode, es).client.banner == if GivenUp(es) then Down else if Quiet(Stdout(es)) then Waiting else Up
  {
    if es == [] {
      assert LinesOf("") == [];
    } else {
      var n := |es| - 1;
      var s := Run(decode, es[..n]);
      BannerOutcome(decode, es[..n]);
      SeenUnlessQuiet(decode, es[..n]);
      SeenUnlessQuiet(decode, es);
      GivenUpLast(es);
      QuietBefore(es);
      StoppedIffStop(decode, es[..n]);
      if es[n].Chunk? {
        DrainBanner(decode, State(s.buffer + es[n].text, s.client));
        assert Run(decode, es) == Drain(decode, State(s.buffer + es[n].text, s.client));
      } else {
        ClientStepBanner(s.client, es[n]);
        assert Run(decode, es).client == ClientStep(s.client, es[n]);
      }
      hide Run, Legal, Drain, Quiet, Stdout, GivenUp, ClientStep;
    }
  }
}
