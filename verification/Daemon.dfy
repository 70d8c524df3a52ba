/** The long-lived Java compile daemon's client: line framing over stdout chunks and a table of
    outstanding requests. JSON decoding is a parameter; timers and the process appear as events. */
module Daemon {
  import opened Wrappers

  /** What parsing a line gives. `Null` is the JSON text `null`, on which reading `.id` throws;
      an id that is missing or is not a number is `None`. */
  datatype Decoded = Malformed | Null | Message(id: Option<int>, body: string)

  datatype Verdict = Reply(body: string) | TimedOut | WriteFailed | Failed

  datatype Settlement = Settlement(id: nat, verdict: Verdict)

  /** The promise that `compile` waits for before it sends. */
  datatype Banner = Waiting | Up | Down

  /** `pending` holds the keys of the request table in insertion order, the order in which a Map is
      walked. `handled` and `settled` are the history an observer could keep; `crashed` records an
      exception that escaped the stdout callback. */
  datatype Client = Client(bannerSeen: bool, banner: Banner, nextId: nat, stopped: bool,
                           pending: seq<nat>, handled: seq<string>, settled: seq<Settlement>, crashed: bool)

  /** The client and the stdout text not yet framed. */
  datatype State = State(buffer: string, client: Client)

  /** What a banner line contains, and the shortest such line. */
  const MARKER := "\"daemon\""
  const BANNER_LINE := MARKER + "\n"

  const FRESH := Client(false, Waiting, 1, false, [], [], [], false)
  const INITIAL := State("", FRESH)

  // ----- text helpers -----

  predicate IsSpace(c: char) {
    '\t' <= c <= '\r' || c == ' ' || c == '\U{00A0}' || c == '\U{1680}' || '\U{2000}' <= c <= '\U{200A}'
    || c == '\U{2028}' || c == '\U{2029}' || c == '\U{202F}' || c == '\U{205F}' || c == '\U{3000}' || c == '\U{FEFF}'
  }

  function TrimLeft(s: string): string {
    if s != "" && IsSpace(s[0]) then TrimLeft(s[1..]) else s
  }

  function TrimRight(s: string): string {
    if s != "" && IsSpace(s[|s| - 1]) then TrimRight(s[..|s| - 1]) else s
  }

  function Trim(s: string): string {
    TrimRight(TrimLeft(s))
  }

  predicate Contains(s: string, sub: string) {
    sub <= s || (s != "" && Contains(s[1..], sub))
  }

  /** Position of the first newline, or -1. */
  function NewlineAt(s: string): (i: int)
    ensures -1 <= i < |s|
  {
    if s == "" then -1
    else if s[0] == '\n' then 0
    else
      var i := NewlineAt(s[1..]);
      if i < 0 then -1 else i + 1
  }

  /** The keys of a request table without `id`. */
  function Without(ids: seq<nat>, id: nat): (r: seq<nat>)
    ensures forall x :: x in r <==> x in ids && x != id
  {
    if ids == [] then []
    else if ids[0] == id then Without(ids[1..], id)
    else [ids[0]] + Without(ids[1..], id)
  }

  function Failures(ids: seq<nat>): seq<Settlement> {
    if ids == [] then [] else Failures(ids[..|ids| - 1]) + [Settlement(ids[|ids| - 1], Failed)]
  }

  // ----- the transition system -----

  function Settle(c: Client, id: nat, verdict: Verdict): Client {
    c.(pending := Without(c.pending, id), settled := c.settled + [Settlement(id, verdict)])
  }

  function LineStep(decode: string -> Decoded, c: Client, line: string): Client {
    var c := c.(handled := c.handled + [line]);
    match decode(line)
    case Malformed => c
    case Null => c.(crashed := true)
    case Message(id, body) =>
      if id.Some? && id.value >= 0 && id.value in c.pending then Settle(c, id.value, Reply(body)) else c
  }

  /** The first line that is not blank, whatever it says. */
  function SeeBanner(c: Client): Client {
    c.(bannerSeen := true, banner := if c.banner == Waiting then Up else c.banner)
  }

  /** One complete line, already trimmed. */
  function Deliver(decode: string -> Decoded, c: Client, line: string): Client {
    if line == "" then c
    else if c.bannerSeen then LineStep(decode, c, line)
    else if Contains(line, MARKER) then SeeBanner(c)
    else LineStep(decode, SeeBanner(c), line)
  }

  function Drain(decode: string -> Decoded, s: State): State
    decreases |s.buffer|
  {
    var nl := NewlineAt(s.buffer);
    if nl < 0 || s.client.crashed then s
    else Drain(decode, State(s.buffer[nl + 1..], Deliver(decode, s.client, Trim(s.buffer[..nl]))))
  }

  function FailAllStep(c: Client): Client {
    var c := c.(settled := c.settled + Failures(c.pending), pending := []);
    if !c.bannerSeen && c.banner == Waiting then c.(banner := Down) else c
  }

  function Issue(c: Client): Client {
    c.(nextId := c.nextId + 1, pending := c.pending + [c.nextId])
  }

  /** `Send` is the part of `compile` after the banner has been awaited. */
  datatype Event =
    | Chunk(text: string)
    | Send(writeOk: bool)
    | Timeout(id: nat)
    | BannerTimeout
    | ProcessError
    | Close
    | Stop

  predicate Enabled(c: Client, e: Event) {
    !c.crashed && (e.Send? ==> c.banner == Up)
  }

  /** Every event but a chunk leaves the unframed text alone. */
  function ClientStep(c: Client, e: Event): Client
    requires !e.Chunk?
  {
    match e
    case Send(writeOk) => if writeOk then Issue(c) else Settle(Issue(c), c.nextId, WriteFailed)
    case Timeout(id) => if id in c.pending then Settle(c, id, TimedOut) else c
    case BannerTimeout => if c.banner == Waiting then c.(banner := Down) else c
    case ProcessError => FailAllStep(c)
    case Close => if c.stopped then c else FailAllStep(c)
    case Stop => c.(stopped := true)
  }

  function Step(decode: string -> Decoded, s: State, e: Event): State {
    if e.Chunk? then Drain(decode, State(s.buffer + e.text, s.client)) else State(s.buffer, ClientStep(s.client, e))
  }

  function Run(decode: string -> Decoded, es: seq<Event>): State {
    if es == [] then INITIAL else Step(decode, Run(decode, es[..|es| - 1]), es[|es| - 1])
  }

  predicate Legal(decode: string -> Decoded, es: seq<Event>) {
    es != [] ==> Legal(decode, es[..|es| - 1]) && Enabled(Run(decode, es[..|es| - 1]).client, es[|es| - 1])
  }

  // ----- the client object -----

  class JavaDaemon {
    const decode: string -> Decoded
    var buffer: string
    var bannerSeen: bool
    var banner: Banner
    var nextId: nat
    var stopped: bool
    var pending: seq<nat>
    var crashed: bool
    ghost var handled: seq<string>
    ghost var settled: seq<Settlement>

    ghost function TheClient(): Client
      reads this
    {
      Client(bannerSeen, banner, nextId, stopped, pending, handled, settled, crashed)
    }

    ghost function View(): State
      reads this
    {
      State(buffer, TheClient())
    }

    constructor (decode: string -> Decoded)
      ensures this.decode == decode && View() == INITIAL
    {
      this.decode := decode;
      buffer, bannerSeen, banner, nextId, stopped, pending, crashed := "", false, Waiting, 1, false, [], false;
      handled, settled := [], [];
    }

    /** Removes a table entry and reports how its promise ended. */
    method Finish(id: nat, verdict: Verdict)
      modifies this`pending, this`settled
      ensures TheClient() == Settle(old(TheClient()), id, verdict)
    {
      pending := Without(pending, id);
      settled := settled + [Settlement(id, verdict)];
    }

    method HandleLine(line: string)
      modifies this`handled, this`crashed, this`pending, this`settled
      ensures TheClient() == LineStep(decode, old(TheClient()), line)
    {
      handled := handled + [line];
      match decode(line) {
        case Malformed =>
        case Null => crashed := true;
        case Message(id, body) =>
          if id.Some? && id.value >= 0 && id.value in pending {
            Finish(id.value, Reply(body));
          }
      }
    }

    method OnLine(line: string)
      modifies this`bannerSeen, this`banner, this`handled, this`crashed, this`pending, this`settled
      ensures TheClient() == Deliver(decode, old(TheClient()), line)
    {
      if line == "" {
        return;
      }
      if !bannerSeen {
        bannerSeen := true;
        if banner == Waiting {
          banner := Up;
        }
        if Contains(line, MARKER) {
          return;
        }
      }
      HandleLine(line);
    }

    method OnStdout(chunk: string)
      modifies this
      ensures View() == Step(decode, old(View()), Chunk(chunk))
    {
      hide Deliver, Trim;
      buffer := buffer + chunk;
      var nl := NewlineAt(buffer);
      while nl >= 0 && !crashed
        invariant nl == NewlineAt(buffer)
        invariant Drain(decode, View()) == Step(decode, old(View()), Chunk(chunk))
        decreases |buffer|
      {
        var line := Trim(buffer[..nl]);
        buffer := buffer[nl + 1..];
        OnLine(line);
        nl := NewlineAt(buffer);
      }
    }

    method FailAll()
      modifies this`settled, this`pending, this`banner
      ensures TheClient() == FailAllStep(old(TheClient()))
    {
      for i := 0 to |pending|
        invariant pending == old(pending) && banner == old(banner)
        invariant settled == old(settled) + Failures(pending[..i])
      {
        settled := settled + [Settlement(pending[i], Failed)];
        assert pending[..i + 1][..|pending[..i + 1]| - 1] == pending[..i];
      }
      assert pending[..|pending|] == pending;
      pending := [];
      if !bannerSeen && banner == Waiting {
        banner := Down;
      }
    }

    method SendRequest(writeOk: bool) returns (id: nat)
      modifies this
      ensures id == old(nextId)
      ensures View() == Step(decode, old(View()), Send(writeOk))
    {
      id := nextId;
      nextId := nextId + 1;
      pending := pending + [id];
      if !writeOk {
        Finish(id, WriteFailed);
      }
    }

    method OnTimeout(id: nat)
      modifies this
      ensures View() == Step(decode, old(View()), Timeout(id))
    {
      if id in pending {
        Finish(id, TimedOut);
      }
    }

    method OnClose()
      modifies this
      ensures View() == Step(decode, old(View()), Close)
    {
      if !stopped {
        FailAll();
      }
    }

    method RequestStop()
      modifies this
      ensures View() == Step(decode, old(View()), Stop)
    {
      stopped := true;
    }
  }

  // ----- one step of draining -----

  lemma {:induction false} DrainOnce(decode: string -> Decoded, s: State, nl: nat)
    requires NewlineAt(s.buffer) == nl && !s.client.crashed
    ensures Drain(decode, s) == Drain(decode, State(s.buffer[nl + 1..], Deliver(decode, s.client, Trim(s.buffer[..nl]))))
  {
  }
}
