/** The hand-rolled concurrency limiter: a counter and a queue of waiting starts. */
module Limiter {
  import opened Collections

  /** A submitted task. `throwsNow` says that calling it throws instead of returning a promise. */
  datatype Task = Task(id: nat, throwsNow: bool)

  /** The limiter's two variables, and the history an observer could keep. `answered` lists the
      tasks whose outer promise has been resolved or rejected. */
  datatype State = State(inFlight: int, waiters: seq<Task>,
                         submitted: seq<Task>, started: seq<Task>, done: seq<nat>, answered: seq<nat>)

  /** Submits and settlements arrive in any order. A task that submits further tasks while it is being
      started adds `Submit` events right after its own start: the counter is raised before the call. */
  datatype Event = Submit(throwsNow: bool) | Settle(id: nat)

  const INITIAL := State(0, [], [], [], [], [])

  function Start(s: State, t: Task): State {
    s.(inFlight := s.inFlight + 1, started := s.started + [t])
  }

  function SubmitStep(cap: int, s: State, t: Task): State {
    var s := s.(submitted := s.submitted + [t]);
    if s.inFlight < cap then
      var s := Start(s, t);
      if t.throwsNow then s.(answered := s.answered + [t.id]) else s
    else s.(waiters := s.waiters + [t])
  }

  function SettleStep(s: State, id: nat): State {
    var s := s.(inFlight := s.inFlight - 1, done := s.done + [id]);
    if s.waiters == [] then s.(answered := s.answered + [id])
    else
      var next := s.waiters[0];
      var s := Start(s.(waiters := s.waiters[1..]), next);
      if next.throwsNow then s else s.(answered := s.answered + [id])
  }

  function Step(cap: int, s: State, e: Event): State {
    match e
    case Submit(throwsNow) => SubmitStep(cap, s, Task(|s.submitted|, throwsNow))
    case Settle(id) => SettleStep(s, id)
  }

  /** A started task that returned a promise which has not settled. */
  predicate Running(s: State, id: nat) {
    Task(id, false) in s.started && id !in s.done
  }

  predicate Enabled(s: State, e: Event) {
    e.Settle? ==> Running(s, e.id)
  }

  function Run(cap: int, es: seq<Event>): State {
    if es == [] then INITIAL else Step(cap, Run(cap, es[..|es| - 1]), es[|es| - 1])
  }

  predicate Legal(cap: int, es: seq<Event>) {
    es != [] ==> Legal(cap, es[..|es| - 1]) && Enabled(Run(cap, es[..|es| - 1]), es[|es| - 1])
  }

  // ----- the limiter itself -----

  class ConcurrencyLimiter {
    const cap: int
    var inFlight: int
    var waiters: seq<Task>
    ghost var submitted: seq<Task>
    ghost var started: seq<Task>
    ghost var done: seq<nat>
    ghost var answered: seq<nat>

    ghost function View(): State
      reads this
    {
      State(inFlight, waiters, submitted, started, done, answered)
    }

    constructor (n: int)
      ensures cap == n && View() == INITIAL
    {
      cap, inFlight, waiters := n, 0, [];
      submitted, started, done, answered := [], [], [], [];
    }

    method Begin(t: Task)
      modifies this
      ensures View() == Start(old(View()), t)
    {
      inFlight := inFlight + 1;
      started := started + [t];
    }

    method Release() returns (thrown: bool)
      modifies this
      ensures thrown == (old(waiters) != [] && old(waiters)[0].throwsNow)
      ensures View() == (var s := old(View()).(inFlight := old(inFlight) - 1);
                         if s.waiters == [] then s else Start(s.(waiters := s.waiters[1..]), s.waiters[0]))
    {
      inFlight := inFlight - 1;
      thrown := false;
      if waiters != [] {
        var next := waiters[0];
        waiters := waiters[1..];
        Begin(next);
        thrown := next.throwsNow;
      }
    }

    method SubmitTask(t: Task)
      modifies this
      ensures View() == SubmitStep(cap, old(View()), t)
    {
      submitted := submitted + [t];
      if inFlight < cap {
        Begin(t);
        if t.throwsNow {
          answered := answered + [t.id];
        }
      } else {
        waiters := waiters + [t];
      }
    }

    method SettleTask(id: nat)
      requires Running(View(), id)
      modifies this
      ensures View() == SettleStep(old(View()), id)
    {
      done := done + [id];
      var thrown := Release();
      if !thrown {
        answered := answered + [id];
      }
    }
  }

  /** Any run of events, replayed on the object, leaves it in the state the specification computes. */
  method Replay(cap: int, es: seq<Event>) returns (limiter: ConcurrencyLimiter)
    requires Legal(cap, es)
    ensures fresh(limiter) && limiter.cap == cap && limiter.View() == Run(cap, es)
  {
    if es == [] {
      limiter := new ConcurrencyLimiter(cap);
    } else {
      limiter := Replay(cap, es[..|es| - 1]);
      match es[|es| - 1] {
        case Submit(throwsNow) =>
          var k := CountSubmits(es[..|es| - 1]);
          SubmittedCount(cap, es[..|es| - 1]);
          limiter.SubmitTask(Task(k, throwsNow));
        case Settle(id) => limiter.SettleTask(id);
      }
    }
  }

  function CountSubmits(es: seq<Event>): nat {
    if es == [] then 0 else CountSubmits(es[..|es| - 1]) + if es[|es| - 1].Submit? then 1 else 0
  }

  lemma {:induction false} SubmittedCount(cap: int, es: seq<Event>)
    ensures |Run(cap, es).submitted| == CountSubmits(es)
  {
    if es != [] {
      SubmittedCount(cap, es[..|es| - 1]);
    }
  }

  // ----- safety over every run -----

  function Slots(cap: int): nat {
    if cap < 0 then 0 else cap
  }

  /** Never more than the cap in flight; a task waits only while every slot is taken; tasks start in
      submission order; every submitted task is waiting, in flight or done; a task is done at most once. */
  predicate Safe(cap: int, s: State) {
    && 0 <= s.inFlight <= Slots(cap)
    && (s.waiters != [] ==> s.inFlight == Slots(cap))
    && s.started + s.waiters == s.submitted
    && (forall i :: 0 <= i < |s.submitted| ==> s.submitted[i].id == i)
    && |s.submitted| == |s.waiters| + s.inFlight + |s.done|
    && NoRepeats(s.done)
    && (forall id :: id in s.done ==> Task(id, false) in s.started)
  }

  lemma {:induction false} AlwaysSafe(cap: int, es: seq<Event>)
    requires Legal(cap, es)
    ensures Safe(cap, Run(cap, es))
  {
    if es != [] {
      var before := Run(cap, es[..|es| - 1]);
      AlwaysSafe(cap, es[..|es| - 1]);
      match es[|es| - 1] {
        case Submit(throwsNow) => SubmitKeepsSafe(cap, before, throwsNow);
        case Settle(id) => SettleKeepsSafe(cap, before, id);
      }
    }
  }

  lemma SubmitKeepsSafe(cap: int, s: State, throwsNow: bool)
    requires Safe(cap, s)
    ensures Safe(cap, SubmitStep(cap, s, Task(|s.submitted|, throwsNow)))
  {
    var t := Task(|s.submitted|, throwsNow);
    if s.inFlight < cap {
      assert s.waiters == [] && s.started == s.submitted;
    } else {
      assert s.started + (s.waiters + [t]) == s.submitted + [t];
    }
  }

  lemma SettleKeepsSafe(cap: int, s: State, id: nat)
    requires Safe(cap, s) && Running(s, id)
    ensures Safe(cap, SettleStep(s, id))
  {
    StillRunning(cap, s, id);
    if s.waiters != [] {
      assert s.started + [s.waiters[0]] + s.waiters[1..] == s.submitted;
    }
  }

  /** A running task accounts for a slot: fewer tasks are done than were started. */
  lemma StillRunning(cap: int, s: State, id: nat)
    requires Safe(cap, s) && Running(s, id)
    ensures s.inFlight > 0
  {
    var ids := Elements(s.done);
    DistinctSize(s.done);
    var all := Below(|s.started|);
    assert forall i :: 0 <= i < |s.started| ==> s.started[i] == s.submitted[i];
    forall i | i in ids + {id} ensures i in all {
      assert Task(i, false) in s.started;
    }
    assert id !in ids;
    SubsetSize(ids + {id}, all);
  }

  function Below(n: nat): (s: set<nat>)
    ensures forall i: nat :: i in s <==> i < n
    ensures |s| == n
  {
    if n == 0 then {} else Below(n - 1) + {n - 1}
  }

  function Elements(ids: seq<nat>): set<nat> {
    set i | i in ids
  }

  lemma {:induction false} DistinctSize(ids: seq<nat>)
    requires NoRepeats(ids)
    ensures |Elements(ids)| == |ids|
  {
    if ids != [] {
      var front, last := ids[..|ids| - 1], ids[|ids| - 1];
      DistinctSize(front);
      assert ids == front + [last] && last !in front;
      assert Elements(ids) == Elements(front) + {last};
    }
  }

  // ----- nothing is left behind -----

  function Throwers(ts: seq<Task>): nat {
    if ts == [] then 0 else Throwers(ts[..|ts| - 1]) + if ts[|ts| - 1].throwsNow then 1 else 0
  }

  /** The tasks that returned a promise, by position. */
  function Promised(ts: seq<Task>): (ids: set<nat>)
    requires forall i :: 0 <= i < |ts| ==> ts[i].id == i
    ensures forall i: nat :: i in ids <==> i < |ts| && !ts[i].throwsNow
    ensures |ids| == |ts| - Throwers(ts)
  {
    if ts == [] then {}
    else
      var front := Promised(ts[..|ts| - 1]);
      if ts[|ts| - 1].throwsNow then front else front + {|ts| - 1}
  }

  /** When no promise is outstanding, the slots still counted as taken are those of tasks that threw. */
  lemma IdleSlots(cap: int, s: State)
    requires Safe(cap, s) && forall id :: !Running(s, id)
    ensures s.inFlight == Throwers(s.started)
  {
    assert forall i :: 0 <= i < |s.started| ==> s.started[i] == s.submitted[i];
    var ids := Elements(s.done);
    DistinctSize(s.done);
    forall i | i in Promised(s.started) ensures i in ids {
      assert s.started[i] == Task(i, false);
      assert !Running(s, i);
    }
    assert ids == Promised(s.started);
  }

  lemma {:induction false} ThrowersPrefix(a: seq<Task>, b: seq<Task>)
    ensures Throwers(a + b) == Throwers(a) + Throwers(b)
  {
    if b == [] {
      assert a + b == a;
    } else {
      ThrowersPrefix(a, b[..|b| - 1]);
      assert (a + b)[..|a + b| - 1] == a + b[..|b| - 1];
    }
  }

  /** In every run, once all started tasks have settled: a task is left waiting only when as many
      tasks threw as there are slots; if none threw, everything submitted is done and answered. */
  lemma IdleMeansDrained(cap: int, es: seq<Event>)
    requires cap >= 1 && Legal(cap, es)
    requires forall id :: !Running(Run(cap, es), id)
    ensures var s := Run(cap, es);
            (s.waiters != [] ==> Throwers(s.started) == cap) &&
            (Throwers(s.submitted) == 0 ==>
               s.waiters == [] && s.inFlight == 0 && |s.done| == |s.submitted| && s.answered == s.done)
  {
    var s := Run(cap, es);
    AlwaysSafe(cap, es);
    IdleSlots(cap, s);
    ThrowersPrefix(s.started, s.waiters);
    if Throwers(s.submitted) == 0 {
      AllAnswered(cap, es);
    }
  }

  lemma NoThrowers(ts: seq<Task>, i: nat)
    requires Throwers(ts) == 0 && i < |ts|
    ensures !ts[i].throwsNow
  {
    if i < |ts| - 1 {
      NoThrowers(ts[..|ts| - 1], i);
    }
  }

  /** If no task throws, a task's outer promise is answered exactly when the task settles. */
  lemma {:induction false} AllAnswered(cap: int, es: seq<Event>)
    requires Legal(cap, es) && Throwers(Run(cap, es).submitted) == 0
    ensures Run(cap, es).answered == Run(cap, es).done
  {
    if es != [] {
      var before, s := Run(cap, es[..|es| - 1]), Run(cap, es);
      AlwaysSafe(cap, es[..|es| - 1]);
      match es[|es| - 1] {
        case Submit(throwsNow) =>
          ThrowersPrefix(before.submitted, [Task(|before.submitted|, throwsNow)]);
          NoThrowers(s.submitted, |before.submitted|);
        case Settle(id) =>
          if before.waiters != [] {
            assert before.waiters[0] == before.submitted[|before.started|];
            NoThrowers(before.submitted, |before.started|);
          }
      }
      AllAnswered(cap, es[..|es| - 1]);
    }
  }

  // ----- exactly when tasks that throw do harm -----

  /** Settled tasks are among those that returned a promise, so every thrower still holds its slot. */
  lemma {:induction false} ThrowersHoldSlots(cap: int, s: State)
    requires Safe(cap, s)
    ensures Throwers(s.started) <= s.inFlight
    ensures forall id :: Running(s, id) ==> Throwers(s.started) < s.inFlight
  {
    assert forall i :: 0 <= i < |s.started| ==> s.started[i] == s.submitted[i];
    DistinctSize(s.done);
    forall i | i in Elements(s.done) ensures i in Promised(s.started) {
      assert Task(i, false) in s.started;
    }
    SubsetSize(Elements(s.done), Promised(s.started));
    forall id | Running(s, id) ensures Throwers(s.started) < s.inFlight {
      assert id in Promised(s.started) - Elements(s.done);
      SubsetSize(Elements(s.done) + {id}, Promised(s.started));
    }
  }

  /** A task starts only while fewer tasks than there are slots have thrown before it. */
  predicate StartedInTime(cap: int, started: seq<Task>) {
    forall i :: 0 <= i < |started| ==> Throwers(started[..i]) < cap
  }

  lemma {:induction false} OneMoreInTime(cap: int, started: seq<Task>, t: Task)
    requires StartedInTime(cap, started) && Throwers(started) < cap
    ensures StartedInTime(cap, started + [t])
  {
    forall i | 0 <= i < |started + [t]| ensures Throwers((started + [t])[..i]) < cap {
      assert (started + [t])[..i] == if i < |started| then started[..i] else started;
    }
  }

  lemma {:induction false} AlwaysInTime(cap: int, es: seq<Event>)
    requires Legal(cap, es)
    ensures StartedInTime(cap, Run(cap, es).started)
  {
    if es != [] {
      var before := Run(cap, es[..|es| - 1]);
      AlwaysInTime(cap, es[..|es| - 1]);
      AlwaysSafe(cap, es[..|es| - 1]);
      ThrowersHoldSlots(cap, before);
      hide Safe, StartedInTime, Throwers;
      match es[|es| - 1] {
        case Submit(throwsNow) =>
          if before.inFlight < cap {
            OneMoreInTime(cap, before.started, Task(|before.submitted|, throwsNow));
          }
        case Settle(id) =>
          if before.waiters != [] {
            assert before.inFlight <= Slots(cap) by { SlotsBound(cap, before); }
            OneMoreInTime(cap, before.started, before.waiters[0]);
          }
      }
    }
  }

  lemma SlotsBound(cap: int, s: State)
    requires Safe(cap, s)
    ensures s.inFlight <= Slots(cap)
  {
  }

  /** Everything submitted but the last task. */
  function AllButLast(ts: seq<Task>): seq<Task>
    requires ts != []
  {
    ts[..|ts| - 1]
  }

  /** In every run, once all started tasks have settled: nobody is left waiting exactly when nothing was
      submitted or fewer tasks than there are slots throw among all but the last one submitted. */
  lemma {:induction false} DrainedIffFewThrow(cap: int, es: seq<Event>)
    requires Legal(cap, es)
    requires forall id :: !Running(Run(cap, es), id)
    ensures var s := Run(cap, es);
            s.waiters == [] <==> s.submitted == [] || Throwers(AllButLast(s.submitted)) < cap
  {
    var s := Run(cap, es);
    AlwaysSafe(cap, es);
    IdleSlots(cap, s);
    if s.waiters == [] {
      assert s.started == s.submitted;
      AlwaysInTime(cap, es);
    } else {
      var rest := s.waiters[..|s.waiters| - 1];
      assert AllButLast(s.submitted) == s.started + rest;
      ThrowersPrefix(s.started, rest);
    }
  }

  /** A task's outer promise is answered only after it settled, or because it threw when submitted. */
  predicate AnswersDue(s: State) {
    forall id :: id in s.answered ==> id in s.done || Task(id, true) in s.started
  }

  lemma {:induction false} AnswersAlwaysDue(cap: int, es: seq<Event>)
    ensures AnswersDue(Run(cap, es))
  {
    if es != [] {
      AnswersAlwaysDue(cap, es[..|es| - 1]);
    }
  }

  /** The settlement of a task starts the first task not yet started, if there is one; that task throws. */
  predicate StartsThrower(s: State) {
    |s.started| < |s.submitted| && s.submitted[|s.started|].throwsNow
  }

  lemma SettleAnswers(cap: int, s: State, id: nat)
    requires Safe(cap, s) && AnswersDue(s) && Running(s, id)
    ensures id in SettleStep(s, id).done
    ensures id !in SettleStep(s, id).answered <==> StartsThrower(s)
  {
    OneTaskPerId(cap, s, id);
    FirstWaiter(cap, s);
    hide Safe;
  }

  lemma LaterAnswers(cap: int, s: State, e: Event, id: nat)
    requires Safe(cap, s) && Enabled(s, e) && id in s.done
    ensures id in Step(cap, s, e).done
    ensures id in Step(cap, s, e).answered <==> id in s.answered
  {
    SettledWasSubmitted(cap, s, id);
    hide Safe;
  }

  /** A settled task is never answered exactly when its settlement starts a task that throws. */
  lemma {:induction false} UnansweredIffStartsThrower(cap: int, es: seq<Event>, k: nat)
    requires Legal(cap, es) && k < |es| && es[k].Settle?
    ensures es[k].id in Run(cap, es).done
    ensures es[k].id !in Run(cap, es).answered <==> StartsThrower(Run(cap, es[..k]))
  {
    var n, id := |es| - 1, es[k].id;
    var before := Run(cap, es[..n]);
    AlwaysSafe(cap, es[..n]);
    hide Safe, Step, SettleStep, StartsThrower;
    if k < n {
      assert es[..n][..k] == es[..k];
      UnansweredIffStartsThrower(cap, es[..n], k);
      LaterAnswers(cap, before, es[n], id);
    } else {
      AnswersAlwaysDue(cap, es[..n]);
      SettleAnswers(cap, before, id);
      assert Run(cap, es) == Step(cap, before, es[n]) == SettleStep(before, id) by { StepIsSettle(cap, before, es[n]); }
    }
  }

  lemma StepIsSettle(cap: int, s: State, e: Event)
    requires e.Settle?
    ensures Step(cap, s, e) == SettleStep(s, e.id)
  {
  }

  lemma SettledWasSubmitted(cap: int, s: State, id: nat)
    requires Safe(cap, s) && id in s.done
    ensures id < |s.submitted|
  {
    var i :| 0 <= i < |s.started| && s.started[i] == Task(id, false);
    assert s.submitted[i] == Task(id, false);
  }

  lemma OneTaskPerId(cap: int, s: State, id: nat)
    requires Safe(cap, s) && Running(s, id)
    ensures Task(id, true) !in s.started
  {
    assert forall i :: 0 <= i < |s.started| ==> s.started[i] == s.submitted[i];
    var i :| 0 <= i < |s.started| && s.started[i] == Task(id, false);
  }

  lemma FirstWaiter(cap: int, s: State)
    requires Safe(cap, s)
    ensures s.waiters != [] <==> |s.started| < |s.submitted|
    ensures s.waiters != [] ==> s.waiters[0] == s.submitted[|s.started|]
  {
    assert s.waiters != [] ==> (s.started + s.waiters)[|s.started|] == s.waiters[0];
  }

  /** Event k submits task `id`, which starts at once and throws: the caller sees the exception. */
  predicate ThrewOnSubmit(cap: int, es: seq<Event>, k: nat, id: nat)
    requires k < |es|
  {
    es[k] == Submit(true) && CountSubmits(es[..k]) == id && Run(cap, es[..k]).inFlight < cap
  }

  /** Event k settles task `id` and starts no task that throws. */
  predicate SettledCleanly(cap: int, es: seq<Event>, k: nat, id: nat)
    requires k < |es|
  {
    es[k] == Settle(id) && !StartsThrower(Run(cap, es[..k]))
  }

  /** The tasks that get an answer are exactly those that threw when they were submitted and those whose
      settlement started no task that throws. A task that waited and then throws never gets one. */
  lemma {:induction false} AnsweredExactly(cap: int, es: seq<Event>, id: nat)
    requires Legal(cap, es)
    ensures id in Run(cap, es).answered <==>
            exists k :: 0 <= k < |es| && (ThrewOnSubmit(cap, es, k, id) || SettledCleanly(cap, es, k, id))
  {
    if es != [] {
      var n := |es| - 1;
      AnsweredExactly(cap, es[..n], id);
      AnsweredLast(cap, es, id);
      hide Run, Legal, ThrewOnSubmit, SettledCleanly;
      forall k | 0 <= k < n
        ensures ThrewOnSubmit(cap, es, k, id) == ThrewOnSubmit(cap, es[..n], k, id)
        ensures SettledCleanly(cap, es, k, id) == SettledCleanly(cap, es[..n], k, id)
      {
        SameBefore(cap, es, n, k, id);
      }
    }
  }

  lemma SameBefore(cap: int, es: seq<Event>, n: nat, k: nat, id: nat)
    requires k < n <= |es|
    ensures ThrewOnSubmit(cap, es, k, id) == ThrewOnSubmit(cap, es[..n], k, id)
    ensures SettledCleanly(cap, es, k, id) == SettledCleanly(cap, es[..n], k, id)
  {
    hide Run, CountSubmits, StartsThrower;
    assert es[..n][..k] == es[..k];
  }

  lemma AnsweredLast(cap: int, es: seq<Event>, id: nat)
    requires Legal(cap, es) && es != []
    ensures var n := |es| - 1;
            id in Run(cap, es).answered <==>
            id in Run(cap, es[..n]).answered || ThrewOnSubmit(cap, es, n, id) || SettledCleanly(cap, es, n, id)
  {
    var n := |es| - 1;
    var before := Run(cap, es[..n]);
    AlwaysSafe(cap, es[..n]);
    SubmittedCount(cap, es[..n]);
    FirstWaiter(cap, before);
    assert Run(cap, es) == Step(cap, before, es[n]);
    hide Safe, Run, Legal, CountSubmits;
  }

  /** No task is answered twice. */
  lemma {:induction false} AnsweredOnce(cap: int, es: seq<Event>)
    requires Legal(cap, es)
    ensures NoRepeats(Run(cap, es).answered)
  {
    if es != [] {
      var n := |es| - 1;
      var before := Run(cap, es[..n]);
      AnsweredOnce(cap, es[..n]);
      AlwaysSafe(cap, es[..n]);
      AnswersAlwaysDue(cap, es[..n]);
      match es[n] {
        case Submit(throwsNow) => NotYetAnswered(cap, before, |before.submitted|);
        case Settle(id) => OneTaskPerId(cap, before, id);
      }
    }
  }

  lemma StartedBelow(cap: int, s: State)
    requires Safe(cap, s)
    ensures forall t :: t in s.started ==> t.id < |s.submitted|
  {
    forall t | t in s.started ensures t.id < |s.submitted| {
      var i :| 0 <= i < |s.started| && s.started[i] == t;
      assert s.submitted[i] == t;
    }
  }

  lemma NotYetAnswered(cap: int, s: State, id: nat)
    requires Safe(cap, s) && AnswersDue(s) && id >= |s.submitted|
    ensures id !in s.answered
  {
    StartedBelow(cap, s);
    assert id in s.done ==> Task(id, false) in s.started;
  }

  /** A task that throws while it is being started keeps its slot for good: with one slot, the next
      task waits although nothing runs. A second such task, started by a settlement, also swallows
      the settled task's answer. */
  lemma ThrowingTasksLeak()
    ensures var es := [Submit(true), Submit(false)];
            Legal(1, es) && Run(1, es).waiters == [Task(1, false)] && forall id :: !Running(Run(1, es), id)
    ensures var es := [Submit(false), Submit(true), Settle(0)];
            Legal(1, es) && 0 in Run(1, es).done && 0 !in Run(1, es).answered
  {
    var a := [Submit(true)];
    RunAppend(1, [], Submit(true));
    RunAppend(1, a, Submit(false));
    assert [] + [Submit(true)] == a && a + [Submit(false)] == [Submit(true), Submit(false)];
    var b := [Submit(false)];
    RunAppend(1, [], Submit(false));
    RunAppend(1, b, Submit(true));
    RunAppend(1, b + [Submit(true)], Settle(0));
    assert [] + [Submit(false)] == b;
    assert b + [Submit(true)] + [Settle(0)] == [Submit(false), Submit(true), Settle(0)];
    assert Run(1, b).started == [Task(0, false)];
  }

  lemma RunAppend(cap: int, es: seq<Event>, e: Event)
    ensures Run(cap, es + [e]) == Step(cap, Run(cap, es), e)
    ensures Legal(cap, es + [e]) <==> Legal(cap, es) && Enabled(Run(cap, es), e)
  {
    assert (es + [e])[..|es + [e]| - 1] == es;
  }
}
