/**
  Finishing from several threads: the steps of `FinishWithOptions` and of the
  destructor (mocktracer/src/mock_span.cpp:96-125) interleaved in any way with
  each other and with `SetBaggageItem`. The exchange of `is_finished_` is atomic;
  copying the context and setting baggage take the context's mutex.
 */
module FinishRace {
  import opened Bytes
  import opened Seqs
  import opened SpanData
  import opened MockSpans
  import opened SpanRuns

  /** Where a thread is in its call of `FinishWithOptions`. */
  datatype Stage = Called | Won | LogsAdded | TimeSet | ContextCopied | Returned

  datatype Thread = Thread(stage: Stage, options: FinishOptions, nowSteady: Int64)

  /** The destructor: not entered, entered and waiting for its own call of `Finish`, or returned. */
  datatype Destruction = Alive | Finishing | Destroyed

  /** `recorded` is what a non-null recorder got. A call stays in `threads` after it returned. */
  datatype Race = Race(
    span: Span,
    recorder: bool,
    threads: seq<Thread>,
    destructor: Destruction,
    recorded: seq<SpanData>)

  /** The next step of a call. */
  function Advance(r: Race, t: Thread, left: SpanData): (Race, Thread)
    requires t.stage != Returned
  {
    var s := r.span;
    match t.stage
    case Called =>
      if s.finished then (r, t.(stage := Returned))
      else (r.(span := s.(finished := true)), t.(stage := Won))
    case Won =>
      (r.(span := s.(data := s.data.(logs := s.data.logs + t.options.logRecords))), t.(stage := LogsAdded))
    case LogsAdded =>
      var finish := if t.options.steady == 0 then t.nowSteady else t.options.steady;
      (r.(span := s.(data := s.data.(duration := Wrap(finish - s.startSteady)))), t.(stage := TimeSet))
    case TimeSet =>
      (r.(span := s.(data := s.data.(context := s.context))), t.(stage := ContextCopied))
    case ContextCopied =>
      if r.recorder then
        (r.(span := s.(data := left), recorded := r.recorded + [s.data]), t.(stage := Returned))
      else (r, t.(stage := Returned))
  }

  /** A call run to its end without interruption. */
  function Alone(r: Race, t: Thread, left: SpanData): Race
    decreases
      match t.stage case Called => 5 case Won => 4 case LogsAdded => 3 case TimeSet => 2 case ContextCopied => 1
      case Returned => 0
  {
    if t.stage == Returned then r
    else
      var (r', t') := Advance(r, t, left);
      Alone(r', t', left)
  }

  /** Uninterrupted, the steps are the call that SpanRuns takes as one. */
  lemma AloneIsCall(r: Race, options: FinishOptions, nowSteady: Int64, left: SpanData)
    ensures var op := FinishWithOptions(options, nowSteady, left);
      var end := Alone(r, Thread(Called, options, nowSteady), left);
      (r.recorder ==> end.span == After(r.span, op) && end.recorded == r.recorded + Records(r.span, op)) &&
      (!r.recorder ==>
        end.recorded == r.recorded && end.span == After(r.span, op.(left := Snapshot(r.span, options, nowSteady))))
  {
    hide Wrap;
    var s := r.span;
    var t := Thread(Called, options, nowSteady);
    if !s.finished {
      var (r1, t1) := Advance(r, t, left);
      var (r2, t2) := Advance(r1, t1, left);
      var (r3, t3) := Advance(r2, t2, left);
      var (r4, t4) := Advance(r3, t3, left);
      assert r4.span.data == Snapshot(s, options, nowSteady);
      var (r5, t5) := Advance(r4, t4, left);
      assert Alone(r4, t4, left) == r5 && Alone(r3, t3, left) == r5 && Alone(r2, t2, left) == r5;
    } else {
      assert r.recorded + Records(s, FinishWithOptions(options, nowSteady, left)) == r.recorded;
    }
  }

  /** One step of the scheduler. `left` is what a move leaves behind. */
  datatype Event =
    | Finish(options: FinishOptions, nowSteady: Int64)
    | Run(i: nat, left: SpanData)
    | SetBaggage(key: ByteString, text: ByteString)
    | Destroy(nowSteady: Int64, nowSteadyLater: Int64)
    | Return

  predicate Idle(r: Race) {
    forall i :: 0 <= i < |r.threads| ==> r.threads[i].stage == Returned
  }

  /** The destructor is entered when no call is in progress, and no call is made after that but its own. */
  predicate Enabled(r: Race, event: Event) {
    match event
    case Finish(_, _) => r.destructor.Alive?
    case Run(i, _) => i < |r.threads| && r.threads[i].stage != Returned
    case SetBaggage(_, _) => r.destructor.Alive?
    case Destroy(_, _) => r.destructor.Alive? && Idle(r)
    case Return => r.destructor.Finishing? && Idle(r)
  }

  function Step(r: Race, event: Event): Race
    requires Enabled(r, event)
  {
    match event
    case Finish(options, nowSteady) => r.(threads := r.threads + [Thread(Called, options, nowSteady)])
    case Run(i, left) =>
      var (r', t) := Advance(r, r.threads[i], left);
      r'.(threads := r.threads[i := t])
    case SetBaggage(key, text) => r.(span := After(r.span, SetBaggageItem(key, text)))
    case Destroy(nowSteady, nowSteadyLater) =>
      if r.span.finished then r.(destructor := Destroyed)
      else r.(destructor := Finishing,
              threads := r.threads + [Thread(Called, FinishOptions(nowSteady, []), nowSteadyLater)])
    case Return => r.(destructor := Destroyed)
  }

  predicate Schedule(r: Race, events: seq<Event>)
    decreases |events|
  {
    |events| == 0 || (Enabled(r, events[0]) && Schedule(Step(r, events[0]), events[1..]))
  }

  function RunAll(r: Race, events: seq<Event>): Race
    requires Schedule(r, events)
    decreases |events|
  {
    if |events| == 0 then r else RunAll(Step(r, events[0]), events[1..])
  }

  // ---------- The invariant ----------

  predicate Inside(t: Thread) {
    t.stage != Called && t.stage != Returned
  }

  /** The threads between their exchange and their return. */
  function Insiders(ts: seq<Thread>): (r: seq<Thread>) {
    if |ts| == 0 then []
    else if Inside(ts[0]) then [ts[0]] + Insiders(ts[1..])
    else Insiders(ts[1..])
  }

  /** The winner's log records and duration on top of the data that was there before. */
  function Completed(s0: Span, t: Thread): SpanData {
    var finish := if t.options.steady == 0 then t.nowSteady else t.options.steady;
    s0.data.(logs := s0.data.logs + t.options.logRecords, duration := Wrap(finish - s0.startSteady))
  }

  /** How far the winner is in building its data. */
  predicate Building(s0: Span, t: Thread, s: Span) {
    match t.stage
    case Won => s.data == s0.data
    case LogsAdded => s.data == s0.data.(logs := s0.data.logs + t.options.logRecords)
    case TimeSet => s.data == Completed(s0, t)
    case ContextCopied =>
      s.data == Completed(s0, t).(context := s.data.context) && Snapped(s0, s.data.context, s.context)
    case _ => true
  }

  /** A copy of the context made between two moments. */
  predicate Snapped(s0: Span, copy: SpanContextData, now: SpanContextData) {
    copy.traceId == s0.context.traceId && copy.spanId == s0.context.spanId &&
    Within(s0.context.baggage, copy.baggage) && Within(copy.baggage, now.baggage)
  }

  /** The record is a snapshot of the span for one of the calls made. */
  predicate IsRecord(s0: Span, t: Thread, record: SpanData, now: SpanContextData) {
    record == Completed(s0, t).(context := record.context) && Snapped(s0, record.context, now)
  }

  predicate FromCall(s0: Span, r: Race, i: int) {
    0 <= i < |r.threads| && r.threads[i].stage == Returned && |r.recorded| == 1 &&
    IsRecord(s0, r.threads[i], r.recorded[0], r.span.context)
  }

  /** `s0` is the span before any of the calls. */
  ghost predicate Invariant(s0: Span, r: Race) {
    var inside := Insiders(r.threads);
    r.span.startSteady == s0.startSteady && Snapped(s0, s0.context, r.span.context) &&
    r.span.context.traceId == s0.context.traceId && r.span.context.spanId == s0.context.spanId &&
    (forall i :: 0 <= i < |r.threads| && r.threads[i].stage != Called ==> r.span.finished) &&
    (!r.span.finished ==> inside == [] && r.recorded == [] && r.span.data == s0.data) &&
    (r.span.finished ==>
      |inside| <= 1 &&
      |r.recorded| == (if r.recorder && inside == [] then 1 else 0) &&
      (|inside| == 1 ==> Building(s0, inside[0], r.span)) &&
      (|r.recorded| == 1 ==> exists i :: FromCall(s0, r, i))) &&
    (r.destructor.Finishing? ==> |r.threads| > 0) &&
    (r.destructor.Destroyed? ==> r.span.finished && Idle(r))
  }

  lemma {:induction false} InsidersUpdate(ts: seq<Thread>, i: nat, t: Thread)
    requires i < |ts|
    ensures var was, now := Insiders(ts), Insiders(ts[i := t]);
      (!Inside(ts[i]) && !Inside(t) ==> now == was) &&
      (!Inside(ts[i]) && Inside(t) && was == [] ==> now == [t]) &&
      (Inside(ts[i]) && |was| == 1 ==> was == [ts[i]] && now == if Inside(t) then [t] else [])
    ensures Inside(ts[i]) ==> |Insiders(ts)| > 0
  {
    if i == 0 {
      assert ts[i := t][1..] == ts[1..];
    } else {
      assert ts[i := t][1..] == ts[1..][i - 1 := t];
      InsidersUpdate(ts[1..], i - 1, t);
    }
  }

  lemma {:induction false} InsidersAppend(a: seq<Thread>, b: seq<Thread>)
    ensures Insiders(a + b) == Insiders(a) + Insiders(b)
  {
    if |a| == 0 {
      assert a + b == b;
    } else {
      assert (a + b)[1..] == a[1..] + b;
      InsidersAppend(a[1..], b);
    }
  }

  lemma OneThread(t: Thread)
    ensures Insiders([t]) == if Inside(t) then [t] else []
  {
    assert [t][1..] == [];
  }

  /** What one step of a call does, whichever thread makes it. */
  lemma AdvanceKeeps(s0: Span, r: Race, t: Thread, left: SpanData)
    requires t.stage != Returned && Invariant(s0, r)
    requires Inside(t) ==> Insiders(r.threads) == [t] && r.span.finished
    ensures var (r', t') := Advance(r, t, left);
      r' == r.(span := r'.span, recorded := r'.recorded) &&
      r'.span == r.span.(finished := true, data := r'.span.data) &&
      t' == t.(stage := t'.stage) && t'.stage != Called &&
      (t.stage == Called && r.span.finished ==> r' == r && t'.stage == Returned) &&
      (t.stage == Called && !r.span.finished ==> Inside(t')) &&
      (Inside(t') ==> Building(s0, t', r'.span) && r'.recorded == []) &&
      (Inside(t) && !Inside(t') ==>
        |r'.recorded| == (if r.recorder then 1 else 0) &&
        (r.recorder ==> IsRecord(s0, t', r'.recorded[0], r.span.context)))
  {
    hide Wrap, Within;
    WithinItself(r.span.context.baggage);
  }

  lemma RunKeeps(s0: Span, r: Race, i: nat, left: SpanData)
    requires Invariant(s0, r) && Enabled(r, Run(i, left))
    ensures Invariant(s0, Step(r, Run(i, left)))
  {
    hide Advance, Building, IsRecord, Snapped;
    var t := r.threads[i];
    var (r', t') := Advance(r, t, left);
    var next := Step(r, Run(i, left));
    InsidersUpdate(r.threads, i, t');
    AdvanceKeeps(s0, r, t, left);
    if |r.recorded| == 1 {
      var j :| FromCall(s0, r, j);
      assert FromCall(s0, next, j);
    } else if |next.recorded| == 1 {
      assert FromCall(s0, next, i);
    }
  }

  lemma CallKeeps(s0: Span, r: Race, t: Thread, destructor: Destruction)
    requires Invariant(s0, r) && t.stage == Called && r.destructor.Alive? && !destructor.Destroyed?
    ensures Invariant(s0, r.(threads := r.threads + [t], destructor := destructor))
  {
    hide Building, IsRecord, Snapped;
    var next := r.(threads := r.threads + [t], destructor := destructor);
    InsidersAppend(r.threads, [t]);
    OneThread(t);
    if |r.recorded| == 1 {
      var j :| FromCall(s0, r, j);
      assert FromCall(s0, next, j);
    }
  }

  lemma SetBaggageKeeps(s0: Span, r: Race, event: Event)
    requires Invariant(s0, r) && event.SetBaggage? && Enabled(r, event)
    ensures Invariant(s0, Step(r, event))
  {
    hide Insiders, Idle, Wrap;
    var next := Step(r, event);
    assert Within(r.span.context.baggage, next.span.context.baggage);
    if |r.recorded| == 1 {
      var j :| FromCall(s0, r, j);
      assert FromCall(s0, next, j);
    }
  }

  lemma DestructorKeeps(s0: Span, r: Race)
    requires Invariant(s0, r) && Idle(r) && !r.destructor.Destroyed? && (r.destructor.Alive? ==> r.span.finished)
    ensures Invariant(s0, r.(destructor := Destroyed))
  {
    hide Insiders, Building, IsRecord, Snapped;
    var next := r.(destructor := Destroyed);
    if r.destructor.Finishing? {
      assert r.threads[0].stage == Returned;
    }
    if |r.recorded| == 1 {
      var j :| FromCall(s0, r, j);
      assert FromCall(s0, next, j);
    }
  }

  lemma StepKeeps(s0: Span, r: Race, event: Event)
    requires Invariant(s0, r) && Enabled(r, event)
    ensures Invariant(s0, Step(r, event))
  {
    hide Invariant, Advance;
    match event {
      case Finish(options, nowSteady) => CallKeeps(s0, r, Thread(Called, options, nowSteady), Alive);
      case Run(i, left) => RunKeeps(s0, r, i, left);
      case SetBaggage(_, _) => SetBaggageKeeps(s0, r, event);
      case Destroy(nowSteady, nowSteadyLater) =>
        if r.span.finished {
          DestructorKeeps(s0, r);
        } else {
          CallKeeps(s0, r, Thread(Called, FinishOptions(nowSteady, []), nowSteadyLater), Finishing);
        }
      case Return => DestructorKeeps(s0, r);
    }
  }

  lemma {:induction false} ScheduleKeeps(s0: Span, r: Race, events: seq<Event>)
    requires Invariant(s0, r) && Schedule(r, events)
    ensures Invariant(s0, RunAll(r, events))
    decreases |events|
  {
    hide Invariant, Step, Enabled;
    if |events| > 0 {
      StepKeeps(s0, r, events[0]);
      ScheduleKeeps(s0, Step(r, events[0]), events[1..]);
    }
  }

  lemma {:induction false} NoInsiders(ts: seq<Thread>)
    requires forall i :: 0 <= i < |ts| ==> ts[i].stage == Returned
    ensures Insiders(ts) == []
  {
    if |ts| > 0 {
      NoInsiders(ts[1..]);
    }
  }

  lemma {:induction false} RecorderKept(r: Race, events: seq<Event>)
    requires Schedule(r, events)
    ensures RunAll(r, events).recorder == r.recorder
    decreases |events|
  {
    if |events| > 0 {
      RecorderKept(Step(r, events[0]), events[1..]);
    }
  }

  /** A span that has been started and not finished, without calls in progress. */
  function Begin(span: Span, recorder: bool): Race {
    Race(span, recorder, [], Alive, [])
  }

  lemma BeginHolds(span: Span, recorder: bool)
    requires !span.finished
    ensures Invariant(span, Begin(span, recorder))
  {
  }

  /**
    Exactly-once recording. Whatever the interleaving of finish calls, a recorder
    gets a span at most once, and exactly once by the time its destructor has
    returned; without a recorder nothing is recorded. The record is the snapshot
    of one of the calls, and its baggage is held by the context ever after.
   */
  lemma RecordedExactlyOnce(span: Span, recorder: bool, events: seq<Event>)
    requires !span.finished && Schedule(Begin(span, recorder), events)
    ensures var end := RunAll(Begin(span, recorder), events);
      |end.recorded| <= (if recorder then 1 else 0) &&
      (end.destructor.Destroyed? ==> |end.recorded| == if recorder then 1 else 0) &&
      (|end.recorded| == 1 ==> exists i :: FromCall(span, end, i))
  {
    hide Schedule, Step, Enabled, RunAll, FromCall, Building, Insiders, Snapped;
    var end := RunAll(Begin(span, recorder), events);
    BeginHolds(span, recorder);
    ScheduleKeeps(span, Begin(span, recorder), events);
    RecorderKept(Begin(span, recorder), events);
    if end.destructor.Destroyed? {
      NoInsiders(end.threads);
    }
  }

  /** No two calls are ever inside at once: the exchange lets one thread in. */
  lemma OneInside(span: Span, recorder: bool, events: seq<Event>, i: nat, j: nat)
    requires !span.finished && Schedule(Begin(span, recorder), events)
    ensures var ts := RunAll(Begin(span, recorder), events).threads;
      i < j < |ts| ==> !Inside(ts[i]) || !Inside(ts[j])
  {
    BeginHolds(span, recorder);
    ScheduleKeeps(span, Begin(span, recorder), events);
    hide Schedule, Step, Enabled, RunAll;
    var ts := RunAll(Begin(span, recorder), events).threads;
    if i < j < |ts| && Inside(ts[i]) && Inside(ts[j]) {
      TwoInside(ts, i, j);
      assert false;
    }
  }

  lemma {:induction false} TwoInside(ts: seq<Thread>, i: nat, j: nat)
    requires i < j < |ts| && Inside(ts[i]) && Inside(ts[j])
    ensures |Insiders(ts)| >= 2
  {
    if i > 0 {
      TwoInside(ts[1..], i - 1, j - 1);
    } else {
      InsidersUpdate(ts[1..], j - 1, ts[j]);
    }
  }

  // ---------- Every run can end ----------

  /** The steps a call has still to make. */
  function StepsLeft(t: Thread): nat {
    match t.stage case Called => 5 case Won => 4 case LogsAdded => 3 case TimeSet => 2 case ContextCopied => 1
      case Returned => 0
  }

  function Work(ts: seq<Thread>): nat {
    if |ts| == 0 then 0 else StepsLeft(ts[0]) + Work(ts[1..])
  }

  lemma {:induction false} WorkUpdate(ts: seq<Thread>, i: nat, t: Thread)
    requires i < |ts|
    ensures Work(ts[i := t]) == Work(ts) - StepsLeft(ts[i]) + StepsLeft(t)
  {
    hide StepsLeft;
    if i == 0 {
      assert ts[i := t][1..] == ts[1..];
    } else {
      assert ts[i := t][1..] == ts[1..][i - 1 := t];
      WorkUpdate(ts[1..], i - 1, t);
    }
  }

  lemma RunWorks(r: Race, i: nat, left: SpanData)
    requires Enabled(r, Run(i, left))
    ensures var next := Step(r, Run(i, left));
      Work(next.threads) < Work(r.threads) && next.destructor == r.destructor
  {
    hide Wrap;
    WorkUpdate(r.threads, i, Advance(r, r.threads[i], left).1);
  }

  /** Calls in progress can be run to their ends. */
  lemma {:induction false} Settle(r: Race) returns (more: seq<Event>)
    ensures Schedule(r, more) && Idle(RunAll(r, more)) && RunAll(r, more).destructor == r.destructor
    decreases Work(r.threads)
  {
    hide Advance;
    more := [];
    if !Idle(r) {
      var i: nat :| i < |r.threads| && r.threads[i].stage != Returned;
      var event := Run(i, r.span.data);
      RunWorks(r, i, r.span.data);
      var later := Settle(Step(r, event));
      more := [event] + later;
      assert more[1..] == later;
    }
  }

  lemma {:induction false} ScheduleAppend(r: Race, a: seq<Event>, b: seq<Event>)
    requires Schedule(r, a) && Schedule(RunAll(r, a), b)
    ensures Schedule(r, a + b) && RunAll(r, a + b) == RunAll(RunAll(r, a), b)
    decreases |a|
  {
    hide Step, Enabled;
    if |a| == 0 {
      assert a + b == b;
    } else {
      assert (a + b)[1..] == a[1..] + b;
      ScheduleAppend(Step(r, a[0]), a[1..], b);
    }
  }

  lemma OneEvent(r: Race, event: Event)
    requires Enabled(r, event)
    ensures Schedule(r, [event]) && RunAll(r, [event]) == Step(r, event)
  {
    hide Step, Enabled;
    assert [event][1..] == [];
  }

  /** The destructor of an idle span can run to its end. */
  lemma EndIdle(r: Race) returns (more: seq<Event>)
    requires Idle(r) && !r.destructor.Destroyed?
    ensures Schedule(r, more) && RunAll(r, more).destructor.Destroyed?
  {
    hide Schedule, RunAll, Advance;
    if r.destructor.Finishing? {
      OneEvent(r, Return);
      return [Return];
    }
    var destroy := Destroy(0, 0);
    OneEvent(r, destroy);
    var entered := Step(r, destroy);
    if entered.destructor.Destroyed? {
      return [destroy];
    }
    var settled := Settle(entered);
    ScheduleAppend(r, [destroy], settled);
    var last := RunAll(entered, settled);
    OneEvent(last, Return);
    ScheduleAppend(r, [destroy] + settled, [Return]);
    more := [destroy] + settled + [Return];
  }

  /**
    No schedule gets stuck: however far calls have come, they can be run to the
    destructor's end, and then the recorder has got the span exactly once.
   */
  lemma CanEnd(span: Span, recorder: bool, events: seq<Event>) returns (more: seq<Event>)
    requires !span.finished && Schedule(Begin(span, recorder), events)
    ensures Schedule(Begin(span, recorder), events + more)
    ensures var end := RunAll(Begin(span, recorder), events + more);
      end.destructor.Destroyed? && |end.recorded| == if recorder then 1 else 0
  {
    hide Schedule, RunAll, Step, Enabled, FromCall;
    var start := Begin(span, recorder);
    var r := RunAll(start, events);
    if r.destructor.Destroyed? {
      assert events + [] == events;
      more := [];
    } else {
      var settled := Settle(r);
      ScheduleAppend(start, events, settled);
      var ended := EndIdle(RunAll(r, settled));
      ScheduleAppend(start, events + settled, ended);
      more := settled + ended;
      Associate(events, settled, ended);
    }
    RecordedExactlyOnce(span, recorder, events + more);
  }
}
