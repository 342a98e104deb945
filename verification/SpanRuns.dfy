/**
  Whole runs of a tracer: any number of spans are started, called, cloned and
  carried over the wire, in any order. The laws of baggage, of traces and of
  what is recorded.
 */
module SpanRuns {
  import opened Wrappers
  import opened Bytes
  import opened StdMap
  import opened SpanData
  import opened MockSpans
  import ByteOrder
  import Streams
  import TextMap
  import TextMapLaws
  import Wire
  import WireLaws

  type Baggage = map<ByteString, ByteString>

  predicate Within(a: Baggage, b: Baggage) {
    forall k :: k in a ==> k in b && b[k] == a[k]
  }

  // ---------- One span ----------

  function AfterAll(s: Span, ops: seq<Op>): Span
    decreases |ops|
  {
    if |ops| == 0 then s else AfterAll(After(s, ops[0]), ops[1..])
  }

  function RecordsOfAll(s: Span, ops: seq<Op>): seq<SpanData>
    decreases |ops|
  {
    if |ops| == 0 then [] else Records(s, ops[0]) + RecordsOfAll(After(s, ops[0]), ops[1..])
  }

  /** The value of the first `SetBaggageItem` for a key. */
  function FirstSet(ops: seq<Op>, key: ByteString): Option<ByteString> {
    if |ops| == 0 then None
    else if ops[0].SetBaggageItem? && ops[0].key == key then Some(ops[0].text)
    else FirstSet(ops[1..], key)
  }

  /** A key keeps the value it started with, or else the first one set. Nothing else is bound. */
  lemma {:induction false} FirstSetWins(s: Span, ops: seq<Op>, key: ByteString)
    ensures var b := AfterAll(s, ops).context.baggage;
      Lookup(b, key) ==
      if key in s.context.baggage then Some(s.context.baggage[key]) else FirstSet(ops, key)
    decreases |ops|
  {
    if |ops| > 0 {
      FirstSetWins(After(s, ops[0]), ops[1..], key);
    }
  }

  lemma ContextKept(s: Span, ops: seq<Op>)
    ensures var c := AfterAll(s, ops).context;
      c.traceId == s.context.traceId && c.spanId == s.context.spanId && Within(s.context.baggage, c.baggage)
  {
    IdsKept(s, ops);
    forall k | k in s.context.baggage
      ensures k in AfterAll(s, ops).context.baggage && AfterAll(s, ops).context.baggage[k] == s.context.baggage[k]
    {
      FirstSetWins(s, ops, k);
    }
  }

  lemma {:induction false} IdsKept(s: Span, ops: seq<Op>)
    ensures var c := AfterAll(s, ops).context;
      c.traceId == s.context.traceId && c.spanId == s.context.spanId
    decreases |ops|
  {
    if |ops| > 0 {
      IdsKept(After(s, ops[0]), ops[1..]);
    }
  }

  // What the calls before the finish leave for the record, each part by itself.

  function LastName(name: string, ops: seq<Op>): string {
    if |ops| == 0 then name
    else if ops[|ops| - 1].SetOperationName? then ops[|ops| - 1].name
    else LastName(name, ops[..|ops| - 1])
  }

  function LastTag(tags: map<ByteString, Value>, ops: seq<Op>, key: ByteString): Option<Value> {
    if |ops| == 0 then Lookup(tags, key)
    else if ops[|ops| - 1].SetTag? && ops[|ops| - 1].key == key then Some(ops[|ops| - 1].value)
    else LastTag(tags, ops[..|ops| - 1], key)
  }

  function Logged(ops: seq<Op>): seq<LogRecord> {
    if |ops| == 0 then []
    else if ops[0].Log? then [ops[0].record] + Logged(ops[1..])
    else Logged(ops[1..])
  }

  predicate NoFinish(ops: seq<Op>) {
    forall i :: 0 <= i < |ops| ==> !ops[i].FinishWithOptions?
  }

  lemma {:induction false} AfterAllAppend(s: Span, a: seq<Op>, b: seq<Op>)
    ensures AfterAll(s, a + b) == AfterAll(AfterAll(s, a), b)
    ensures RecordsOfAll(s, a + b) == RecordsOfAll(s, a) + RecordsOfAll(AfterAll(s, a), b)
    decreases |a|
  {
    hide After, Records;
    if |a| == 0 {
      assert a + b == b;
    } else {
      assert (a + b)[1..] == a[1..] + b;
      AfterAllAppend(After(s, a[0]), a[1..], b);
    }
  }

  lemma {:induction false} LoggedAppend(a: seq<Op>, b: seq<Op>)
    ensures Logged(a + b) == Logged(a) + Logged(b)
  {
    if |a| == 0 {
      assert a + b == b;
    } else {
      assert (a + b)[1..] == a[1..] + b;
      LoggedAppend(a[1..], b);
    }
  }

  /** Without a finish, nothing is recorded and the data has the last name, the last tags and all logs. */
  lemma {:induction false} Unfinished(s: Span, ops: seq<Op>)
    requires NoFinish(ops) && !s.finished
    ensures RecordsOfAll(s, ops) == []
    ensures var t := AfterAll(s, ops);
      !t.finished && t.startSteady == s.startSteady &&
      t.data == s.data.(operationName := LastName(s.data.operationName, ops),
                        tags := t.data.tags,
                        logs := s.data.logs + Logged(ops))
    ensures forall k :: Lookup(AfterAll(s, ops).data.tags, k) == LastTag(s.data.tags, ops, k)
    decreases |ops|
  {
    if |ops| > 0 {
      var front, last := ops[..|ops| - 1], ops[|ops| - 1];
      assert ops == front + [last];
      Unfinished(s, front);
      AfterAllAppend(s, front, [last]);
      LoggedAppend(front, [last]);
      var t := AfterAll(s, front);
      OneOp(t, last);
      assert !last.FinishWithOptions?;
      assert Logged([last]) == if last.Log? then [last.record] else [];
    }
  }

  lemma OneOp(s: Span, op: Op)
    ensures AfterAll(s, [op]) == After(s, op) && RecordsOfAll(s, [op]) == Records(s, op)
  {
    assert [op][1..] == [];
  }

  /** After a finish nothing more is recorded. */
  lemma {:induction false} FinishedRecordsNothing(s: Span, ops: seq<Op>)
    requires s.finished
    ensures RecordsOfAll(s, ops) == [] && AfterAll(s, ops).finished
    decreases |ops|
  {
    if |ops| > 0 {
      FinishedRecordsNothing(After(s, ops[0]), ops[1..]);
    }
  }

  lemma RecordOf(s: Span, before: seq<Op>, finish: Op, later: seq<Op>)
    requires !s.finished && NoFinish(before) && finish.FinishWithOptions?
    ensures var t := AfterAll(s, before);
      RecordsOfAll(s, before + [finish] + later) == [Snapshot(t, finish.options, finish.nowSteady)] &&
      Within(t.context.baggage, AfterAll(s, before + [finish] + later).context.baggage)
  {
    hide Within, Logged, LastName, LastTag, Snapshot, AfterAll, RecordsOfAll;
    var t := AfterAll(s, before);
    var u := After(t, finish);
    Unfinished(s, before);
    OneOp(t, finish);
    AfterAllAppend(s, before, [finish]);
    AfterAllAppend(s, before + [finish], later);
    FinishedRecordsNothing(u, later);
    ContextKept(u, later);
  }

  /**
    The recorded snapshot. Of any calls on a span, the first finish records, and
    only it: the logs made before it in order and then the option's records, the
    last name, the last value per tag, the context's identifiers, and baggage
    that the live context holds ever after.
   */
  lemma RecordedSnapshot(s: Span, before: seq<Op>, finish: Op, later: seq<Op>)
    requires !s.finished && NoFinish(before) && finish.FinishWithOptions?
    ensures var records := RecordsOfAll(s, before + [finish] + later);
      var live := AfterAll(s, before + [finish] + later).context;
      |records| == 1 &&
      records[0].logs == s.data.logs + Logged(before) + finish.options.logRecords &&
      records[0].operationName == LastName(s.data.operationName, before) &&
      (forall k :: Lookup(records[0].tags, k) == LastTag(s.data.tags, before, k)) &&
      records[0].references == s.data.references && records[0].startTimestamp == s.data.startTimestamp &&
      records[0].duration ==
        Wrap((if finish.options.steady == 0 then finish.nowSteady else finish.options.steady) - s.startSteady) &&
      records[0].context.traceId == s.context.traceId && records[0].context.spanId == s.context.spanId &&
      Within(s.context.baggage, records[0].context.baggage) && Within(records[0].context.baggage, live.baggage)
  {
    hide Within, Logged, LastName, LastTag, Wrap, AfterAll, RecordsOfAll;
    RecordOf(s, before, finish, later);
    Unfinished(s, before);
    ContextKept(s, before);
  }

  // ---------- Many spans ----------

  /** A span, or a context by itself: a clone or one that was extracted. */
  datatype Entity = Live(span: Span) | Detached(context: SpanContextData)

  function ContextOf(e: Entity): SpanContextData {
    if e.Live? then e.span.context else e.context
  }

  /**
    All spans and contexts in the order they came to be, and what was recorded
    with the span it came from. The rest is history: `parents` are the entities
    that a new one got its context from, and `intact` says that it did not come
    by a transport that its parent's context was too large for, or whose hosts read
    its sizes differently.
   */
  datatype World = World(
    entities: seq<Entity>,
    parents: seq<seq<nat>>,
    intact: seq<bool>,
    recorded: seq<(nat, SpanData)>)

  const EMPTY_WORLD := World([], [], [], [])

  datatype Channel = Stream | TextMap

  /** A reference to an entity; `None` is a null pointer or a context of another tracer. */
  type Target = (ReferenceType, Option<nat>)

  datatype Event =
    | Start(name: string, options: StartOptions<Target>, now: Times, traceId: UInt64, spanId: UInt64)
    | Call(i: nat, op: Op)
    | Clone(i: nat)
    | Transport(i: nat, from: Endian, to: Endian, channel: Channel)

  predicate Valid(w: World) {
    |w.parents| == |w.intact| == |w.entities| &&
    forall i, j :: 0 <= i < |w.entities| && 0 <= j < |w.parents[i]| ==> w.parents[i][j] < i
  }

  predicate Possible(w: World, event: Event) {
    match event
    case Start(_, options, _, _, _) =>
      forall j :: 0 <= j < |options.references| && options.references[j].1.Some? ==>
        options.references[j].1.value < |w.entities|
    case Call(i, _) => i < |w.entities| && w.entities[i].Live?
    case Clone(i) => i < |w.entities|
    case Transport(i, _, _, _) => i < |w.entities|
  }

  /** Runs exclude nothing: any call on any span, finished or not, and any clone, transport or reference. */
  lemma NothingExcluded(w: World, event: Event)
    ensures event.Call? && event.i < |w.entities| && w.entities[event.i].Live? ==> Possible(w, event)
    ensures (event.Clone? || event.Transport?) && event.i < |w.entities| ==> Possible(w, event)
    ensures (event.Start? && forall t :: t in event.options.references && t.1.Some? ==> t.1.value < |w.entities|) ==>
      Possible(w, event)
  {
  }

  function Resolve(es: seq<Entity>, targets: seq<Target>): (r: seq<Referred>)
    requires forall j :: 0 <= j < |targets| && targets[j].1.Some? ==> targets[j].1.value < |es|
    ensures |r| == |targets|
    decreases |targets|
  {
    if |targets| == 0 then []
    else
      var p := targets[0].1;
      [(targets[0].0, if p.Some? then Some(ContextOf(es[p.value])) else None)] + Resolve(es, targets[1..])
  }

  /** The entities that the valid references point to, in order. */
  function ValidTargets(targets: seq<Target>): seq<nat> {
    if |targets| == 0 then []
    else if targets[0].1.None? then ValidTargets(targets[1..])
    else [targets[0].1.value] + ValidTargets(targets[1..])
  }

  lemma {:induction false} ValidTargetsBelow(targets: seq<Target>, n: nat)
    requires forall j :: 0 <= j < |targets| && targets[j].1.Some? ==> targets[j].1.value < n
    ensures forall j :: 0 <= j < |ValidTargets(targets)| ==> ValidTargets(targets)[j] < n
  {
    if |targets| > 0 {
      ValidTargetsBelow(targets[1..], n);
    }
  }

  /** What injecting a context on one host and extracting it on another gives, if it gives a context. */
  function Received(c: SpanContextData, from: Endian, to: Endian, channel: Channel): Option<SpanContextData> {
    match channel
    case Stream =>
      var x := Wire.Extraction(to, Streams.Fresh(Wire.Encoding(from, c)), EMPTY_CONTEXT);
      if x.result == Ok(true) then Some(x.data) else None
    case TextMap =>
      var x := TextMap.FromText(to, TextMap.ContextText(from, c), EMPTY_CONTEXT);
      if x.result == TextMap.Returned(Ok(true)) then Some(x.data) else None
  }

  /** A context's sizes are within what the wire form holds, and both hosts read them alike. */
  predicate Carriable(c: SpanContextData, from: Endian, to: Endian, channel: Channel) {
    Wire.Fits(c) && (from == to || ByteOrder.PalindromicSizes(c)) &&
    (channel.TextMap? ==> !TextMapLaws.TextTooLong(from, c))
  }

  lemma ReceivedIds(c: SpanContextData, from: Endian, to: Endian, channel: Channel)
    ensures var r := Received(c, from, to, channel);
      r.Some? ==> r.value.traceId == c.traceId && r.value.spanId == c.spanId
    ensures Carriable(c, from, to, channel) ==> Received(c, from, to, channel) == Some(c)
  {
    hide Wire.Extraction, Wire.Encoding, TextMap.FromText, TextMap.ContextText, TextMapLaws.TextTooLong, Wire.Fits,
      ByteOrder.PalindromicSizes;
    var bytes := Wire.Encoding(from, c);
    assert bytes + "" == bytes;
    WireLaws.IdentifiersSurvive(from, to, c, "", EMPTY_CONTEXT);
    if Wire.Fits(c) && from == to {
      WireLaws.RoundTripFromEmpty(from, c, "");
    } else if Wire.Fits(c) && ByteOrder.PalindromicSizes(c) {
      ByteOrder.CrossEndianRoundTrip(from, to, c, "");
    }
    TextMapLaws.FromContextText(from, to, c);
  }

  function Add(w: World, e: Entity, parents: seq<nat>, intact: bool): World {
    w.(entities := w.entities + [e], parents := w.parents + [parents], intact := w.intact + [intact])
  }

  function Tagged(i: nat, records: seq<SpanData>): (r: seq<(nat, SpanData)>)
    ensures |r| == |records| && forall j :: 0 <= j < |r| ==> r[j] == (i, records[j])
  {
    seq(|records|, j requires 0 <= j < |records| => (i, records[j]))
  }

  function Step(w: World, event: Event): World
    requires Possible(w, event)
  {
    match event
    case Start(name, options, now, traceId, spanId) =>
      var referred := Resolve(w.entities, options.references);
      var span := Started(name, StartOptions(options.start, referred, options.tags), now, traceId, spanId);
      Add(w, Live(span), ValidTargets(options.references), true)
    case Call(i, op) =>
      var s := w.entities[i].span;
      w.(entities := w.entities[i := Live(After(s, op))], recorded := w.recorded + Tagged(i, Records(s, op)))
    case Clone(i) => Add(w, Detached(ContextOf(w.entities[i])), [i], true)
    case Transport(i, from, to, channel) =>
      var c := ContextOf(w.entities[i]);
      var r := Received(c, from, to, channel);
      if r.Some? then Add(w, Detached(r.value), [i], Carriable(c, from, to, channel)) else w
  }

  lemma StepKeepsValid(w: World, event: Event)
    requires Valid(w) && Possible(w, event)
    ensures Valid(Step(w, event))
    ensures |w.entities| <= |Step(w, event).entities|
    ensures w.parents <= Step(w, event).parents && w.intact <= Step(w, event).intact
  {
    hide Started, Received, Carriable, After, Records;
    if event.Start? {
      ValidTargetsBelow(event.options.references, |w.entities|);
    }
  }

  predicate PossibleRun(w: World, events: seq<Event>)
    decreases |events|
  {
    |events| == 0 || (Possible(w, events[0]) && PossibleRun(Step(w, events[0]), events[1..]))
  }

  function Run(w: World, events: seq<Event>): World
    requires PossibleRun(w, events)
    decreases |events|
  {
    if |events| == 0 then w else Run(Step(w, events[0]), events[1..])
  }

  // ---------- What a run does to what is there ----------

  /** The calls that an entity gets. */
  function OpsOn(events: seq<Event>, i: nat): seq<Op> {
    if |events| == 0 then []
    else (if events[0].Call? && events[0].i == i then [events[0].op] else []) + OpsOn(events[1..], i)
  }

  function RecordsFrom(recorded: seq<(nat, SpanData)>, i: nat): seq<SpanData> {
    if |recorded| == 0 then []
    else if recorded[0].0 == i then [recorded[0].1] + RecordsFrom(recorded[1..], i)
    else RecordsFrom(recorded[1..], i)
  }

  lemma {:induction false} RecordsFromAppend(a: seq<(nat, SpanData)>, b: seq<(nat, SpanData)>, i: nat)
    ensures RecordsFrom(a + b, i) == RecordsFrom(a, i) + RecordsFrom(b, i)
  {
    if |a| == 0 {
      assert a + b == b;
    } else {
      assert (a + b)[1..] == a[1..] + b;
      RecordsFromAppend(a[1..], b, i);
    }
  }

  lemma {:induction false} RecordsFromTagged(records: seq<SpanData>, j: nat, i: nat)
    ensures RecordsFrom(Tagged(j, records), i) == if i == j then records else []
  {
    if |records| > 0 {
      RecordsFromTagged(records[1..], j, i);
      assert Tagged(j, records)[1..] == Tagged(j, records[1..]);
    }
  }

  function Advanced(e: Entity, ops: seq<Op>): Entity {
    if e.Live? then Live(AfterAll(e.span, ops)) else e
  }

  function Recordings(e: Entity, ops: seq<Op>): seq<SpanData> {
    if e.Live? then RecordsOfAll(e.span, ops) else []
  }

  lemma AdvancedAppend(e: Entity, a: seq<Op>, b: seq<Op>)
    ensures Advanced(e, a + b) == Advanced(Advanced(e, a), b)
    ensures Recordings(e, a + b) == Recordings(e, a) + Recordings(Advanced(e, a), b)
  {
    if e.Live? {
      AfterAllAppend(e.span, a, b);
    }
    hide AfterAll, RecordsOfAll;
  }

  lemma NoOps(e: Entity)
    ensures Advanced(e, []) == e && Recordings(e, []) == []
  {
  }

  lemma StepProjects(w: World, event: Event, i: nat)
    requires Possible(w, event) && i < |w.entities|
    ensures var ops := OpsOn([event], i);
      i < |Step(w, event).entities| &&
      Step(w, event).entities[i] == Advanced(w.entities[i], ops) &&
      RecordsFrom(Step(w, event).recorded, i) == RecordsFrom(w.recorded, i) + Recordings(w.entities[i], ops)
  {
    hide Started, Received, Carriable, After, Records;
    assert [event][1..] == [];
    if event.Call? {
      var s := w.entities[event.i].span;
      OneOp(s, event.op);
      RecordsFromAppend(w.recorded, Tagged(event.i, Records(s, event.op)), i);
      RecordsFromTagged(Records(s, event.op), event.i, i);
    }
  }

  lemma FirstOps(events: seq<Event>, i: nat)
    requires |events| > 0
    ensures OpsOn(events, i) == OpsOn([events[0]], i) + OpsOn(events[1..], i)
  {
    assert [events[0]][1..] == [];
  }

  /**
    What a run does to a span depends on the calls on that span alone: nothing
    done to another span or context reaches it.
   */
  lemma {:induction false} RunProjects(w: World, events: seq<Event>, i: nat)
    requires PossibleRun(w, events) && i < |w.entities|
    ensures i < |Run(w, events).entities|
    ensures Run(w, events).entities[i] == Advanced(w.entities[i], OpsOn(events, i))
    ensures RecordsFrom(Run(w, events).recorded, i) ==
      RecordsFrom(w.recorded, i) + Recordings(w.entities[i], OpsOn(events, i))
    decreases |events|
  {
    hide Step, Possible, RecordsFrom, Advanced, Recordings, OpsOn;
    if |events| == 0 {
      assert OpsOn(events, i) == [] by { NoEvents(events, i); }
      NoOps(w.entities[i]);
    } else {
      StepProjects(w, events[0], i);
      RunProjects(Step(w, events[0]), events[1..], i);
      FirstOps(events, i);
      AdvancedAppend(w.entities[i], OpsOn([events[0]], i), OpsOn(events[1..], i));
    }
  }

  lemma NoEvents(events: seq<Event>, i: nat)
    requires |events| == 0
    ensures OpsOn(events, i) == []
  {
  }

  /** A binding never changes or disappears, and identifiers never change. */
  lemma BaggageStays(w: World, events: seq<Event>, i: nat)
    requires PossibleRun(w, events) && i < |w.entities|
    ensures i < |Run(w, events).entities|
    ensures var was, now := ContextOf(w.entities[i]), ContextOf(Run(w, events).entities[i]);
      now.traceId == was.traceId && now.spanId == was.spanId && Within(was.baggage, now.baggage)
  {
    hide AfterAll, OpsOn, Run, Within;
    RunProjects(w, events, i);
    if w.entities[i].Live? {
      ContextKept(w.entities[i].span, OpsOn(events, i));
    } else {
      WithinItself(ContextOf(w.entities[i]).baggage);
    }
  }

  lemma WithinItself(b: Baggage)
    ensures Within(b, b)
  {
  }

  /** A span's baggage at any time: what it started with, and the first value set for each other key. */
  lemma BaggageExactly(w: World, events: seq<Event>, i: nat, key: ByteString)
    requires PossibleRun(w, events) && i < |w.entities| && w.entities[i].Live?
    ensures i < |Run(w, events).entities|
    ensures var was, now := ContextOf(w.entities[i]).baggage, ContextOf(Run(w, events).entities[i]).baggage;
      Lookup(now, key) ==
      if key in was then Some(was[key]) else FirstSet(OpsOn(events, i), key)
  {
    RunProjects(w, events, i);
    FirstSetWins(w.entities[i].span, OpsOn(events, i), key);
  }

  /** The snapshot within a whole run: only the calls on the span itself show in its record. */
  lemma SnapshotInRun(w: World, events: seq<Event>, i: nat, before: seq<Op>, finish: Op, later: seq<Op>)
    requires PossibleRun(w, events) && i < |w.entities| && w.entities[i].Live? && !w.entities[i].span.finished
    requires OpsOn(events, i) == before + [finish] + later && NoFinish(before) && finish.FinishWithOptions?
    ensures i < |Run(w, events).entities|
    ensures var s := w.entities[i].span;
      var was, now := RecordsFrom(w.recorded, i), RecordsFrom(Run(w, events).recorded, i);
      |now| == |was| + 1 && was <= now &&
      now[|was|].logs == s.data.logs + Logged(before) + finish.options.logRecords &&
      now[|was|].operationName == LastName(s.data.operationName, before) &&
      (forall k :: Lookup(now[|was|].tags, k) == LastTag(s.data.tags, before, k)) &&
      now[|was|].context.traceId == s.context.traceId && now[|was|].context.spanId == s.context.spanId &&
      Within(now[|was|].context.baggage, ContextOf(Run(w, events).entities[i]).baggage)
  {
    hide Run, PossibleRun, OpsOn, RecordsFrom, RecordsOfAll, AfterAll, Within, Logged, LastName, LastTag;
    RunProjects(w, events, i);
    RecordedSnapshot(w.entities[i].span, before, finish, later);
  }

  /** No span is recorded twice; a span started and finished in a run is recorded once, whatever happens around it. */
  lemma RecordedOnce(w: World, events: seq<Event>, i: nat)
    requires PossibleRun(w, events) && i < |w.entities| && w.entities[i].Live? && !w.entities[i].span.finished
    ensures i < |Run(w, events).entities| && Run(w, events).entities[i].Live?
    ensures |RecordsFrom(Run(w, events).recorded, i)| ==
      |RecordsFrom(w.recorded, i)| + if Run(w, events).entities[i].span.finished then 1 else 0
  {
    RunProjects(w, events, i);
    RecordsIffFinished(w.entities[i].span, OpsOn(events, i));
    hide Run, AfterAll, RecordsOfAll, RecordsFrom, OpsOn, PossibleRun;
  }

  lemma {:induction false} RecordsIffFinished(s: Span, ops: seq<Op>)
    requires !s.finished
    ensures |RecordsOfAll(s, ops)| == if AfterAll(s, ops).finished then 1 else 0
    decreases |ops|
  {
    if |ops| > 0 {
      var t := After(s, ops[0]);
      if t.finished {
        FinishedRecordsNothing(t, ops[1..]);
      } else {
        RecordsIffFinished(t, ops[1..]);
      }
    }
  }

  predicate Finished(e: Entity) {
    e.Live? && e.span.finished
  }

  /** Every span has one record if it is finished and none otherwise, and there are no other records. */
  predicate Accounted(w: World) {
    (forall i :: 0 <= i < |w.entities| ==>
      |RecordsFrom(w.recorded, i)| == if Finished(w.entities[i]) then 1 else 0) &&
    forall j :: 0 <= j < |w.recorded| ==> w.recorded[j].0 < |w.entities|
  }

  lemma {:induction false} NoRecordsFrom(recorded: seq<(nat, SpanData)>, n: nat)
    requires forall j :: 0 <= j < |recorded| ==> recorded[j].0 < n
    ensures RecordsFrom(recorded, n) == []
  {
    if |recorded| > 0 {
      NoRecordsFrom(recorded[1..], n);
    }
  }

  lemma OpAccounts(e: Entity, ops: seq<Op>)
    ensures |Recordings(e, ops)| + (if Finished(e) then 1 else 0) == if Finished(Advanced(e, ops)) then 1 else 0
  {
    if e.Live? {
      if e.span.finished {
        FinishedRecordsNothing(e.span, ops);
      } else {
        RecordsIffFinished(e.span, ops);
      }
    }
  }

  lemma NewUnfinished(w: World, event: Event)
    requires Possible(w, event)
    ensures var w' := Step(w, event); var n := |w.entities|;
      n <= |w'.entities| <= n + 1 &&
      (|w'.entities| == n + 1 ==> !Finished(w'.entities[n]) && w'.recorded == w.recorded) &&
      (|w'.entities| == n ==> forall j :: |w.recorded| <= j < |w'.recorded| ==> w'.recorded[j].0 < n) &&
      w.recorded <= w'.recorded
  {
    hide Received, Carriable, ComputeStartTimestamps, References, Inherited, Resolve, ValidTargets, After, Records;
  }

  lemma StepAccounts(w: World, event: Event)
    requires Possible(w, event) && Accounted(w)
    ensures Accounted(Step(w, event))
  {
    hide Step, Possible, RecordsFrom, Advanced, Recordings, OpsOn, Finished;
    var w' := Step(w, event);
    NewUnfinished(w, event);
    forall i | 0 <= i < |w'.entities|
      ensures |RecordsFrom(w'.recorded, i)| == if Finished(w'.entities[i]) then 1 else 0
    {
      if i < |w.entities| {
        StepProjects(w, event, i);
        OpAccounts(w.entities[i], OpsOn([event], i));
      } else {
        NoRecordsFrom(w.recorded, i);
      }
    }
  }

  /** In any run a span is recorded once if it is finished and never otherwise. */
  lemma {:induction false} RunAccounts(w: World, events: seq<Event>)
    requires PossibleRun(w, events) && Accounted(w)
    ensures Accounted(Run(w, events))
    decreases |events|
  {
    hide Step, Possible, Accounted;
    if |events| > 0 {
      StepAccounts(w, events[0]);
      RunAccounts(Step(w, events[0]), events[1..]);
    }
  }

  // ---------- What a new span inherits ----------

  /** The last reference that binds a key. */
  function LastBinding(rs: seq<Referred>, key: ByteString): Option<ByteString> {
    if |rs| == 0 then None
    else
      var last := rs[|rs| - 1].1;
      if last.Some? && key in last.value.baggage then Some(last.value.baggage[key])
      else LastBinding(rs[..|rs| - 1], key)
  }

  lemma {:induction false} InheritedAppend(b: Baggage, rs: seq<Referred>, r: Referred)
    ensures Inherited(b, rs + [r]) ==
      if r.1.Some? then Inherited(b, rs) + r.1.value.baggage else Inherited(b, rs)
    decreases |rs|
  {
    if |rs| == 0 {
      assert (rs + [r])[1..] == [];
    } else {
      assert (rs + [r])[1..] == rs[1..] + [r];
      InheritedAppend(if rs[0].1.Some? then b + rs[0].1.value.baggage else b, rs[1..], r);
    }
  }

  /** A new span starts with the right-biased union of its valid references' baggage. */
  lemma {:induction false} LastReferenceWins(rs: seq<Referred>, key: ByteString)
    ensures var b := Inherited(map[], rs);
      Lookup(b, key) == LastBinding(rs, key)
  {
    if |rs| > 0 {
      var front, last := rs[..|rs| - 1], rs[|rs| - 1];
      assert rs == front + [last];
      InheritedAppend(map[], front, last);
      LastReferenceWins(front, key);
    }
  }

  function DropInvalid(targets: seq<Target>): (r: seq<Target>)
    ensures forall j :: 0 <= j < |r| ==> r[j] in targets && r[j].1.Some?
  {
    if |targets| == 0 then []
    else if targets[0].1.Some? then [targets[0]] + DropInvalid(targets[1..])
    else DropInvalid(targets[1..])
  }

  lemma {:induction false} InvalidInherit(es: seq<Entity>, targets: seq<Target>, b: Baggage)
    requires forall j :: 0 <= j < |targets| && targets[j].1.Some? ==> targets[j].1.value < |es|
    ensures References(Resolve(es, targets)) == References(Resolve(es, DropInvalid(targets)))
    ensures Inherited(b, Resolve(es, targets)) == Inherited(b, Resolve(es, DropInvalid(targets)))
    ensures ValidTargets(targets) == ValidTargets(DropInvalid(targets))
    decreases |targets|
  {
    if |targets| > 0 {
      var t := targets[0];
      var c := if t.1.Some? then b + ContextOf(es[t.1.value]).baggage else b;
      InvalidInherit(es, targets[1..], c);
      if t.1.Some? {
        assert DropInvalid(targets)[1..] == DropInvalid(targets[1..]);
      } else {
        assert DropInvalid(targets) == DropInvalid(targets[1..]);
      }
    }
  }

  /** Null pointers and foreign contexts among the references never matter. */
  lemma InvalidReferencesIgnored(w: World, event: Event)
    requires event.Start? && Possible(w, event)
    ensures var clean := event.(options := event.options.(references := DropInvalid(event.options.references)));
      Possible(w, clean) && Step(w, event) == Step(w, clean)
  {
    InvalidInherit(w.entities, event.options.references, map[]);
    hide ComputeStartTimestamps, Resolve, References, Inherited, ValidTargets;
  }

  // ---------- Descendants ----------

  /**
    `y` is `x`, or came to be after the first `n` entities from something that
    reaches `x`; no link of the way there is a transport of a context too large for
    it, and with `single` every entity on the way has one parent.
   */
  predicate Reaches(w: World, n: nat, x: nat, y: nat, single: bool)
    requires Valid(w)
  {
    x == y ||
    (n <= y < |w.entities| && w.intact[y] && (single ==> |w.parents[y]| == 1) &&
     exists j :: 0 <= j < |w.parents[y]| && Reaches(w, n, x, w.parents[y][j], single))
  }

  /** A new entity's baggage against its parents': all keys, and with a single parent all bindings. */
  lemma NewBaggage(w: World, event: Event)
    requires Valid(w) && Possible(w, event)
    ensures Valid(Step(w, event))
    ensures var w' := Step(w, event); var n := |w.entities|;
      |w'.entities| <= n + 1 && (|w'.entities| == n + 1 && w'.intact[n] ==>
        var b := ContextOf(w'.entities[n]).baggage;
        forall j :: 0 <= j < |w'.parents[n]| ==>
          var p := ContextOf(w.entities[w'.parents[n][j]]).baggage;
          p.Keys <= b.Keys && (|w'.parents[n]| == 1 ==> Within(p, b)))
  {
    hide Carriable, Received, ComputeStartTimestamps, References, Inherited, Resolve, ValidTargets, After, Records;
    StepKeepsValid(w, event);
    match event {
      case Start(_, options, _, _, _) => InheritedFrom(w.entities, options.references, map[]);
      case Transport(i, from, to, channel) => ReceivedIds(ContextOf(w.entities[i]), from, to, channel);
      case _ =>
    }
  }

  lemma {:induction false} InheritedFrom(es: seq<Entity>, targets: seq<Target>, b: Baggage)
    requires forall j :: 0 <= j < |targets| && targets[j].1.Some? ==> targets[j].1.value < |es|
    ensures forall j :: 0 <= j < |ValidTargets(targets)| ==> ValidTargets(targets)[j] < |es|
    ensures var r := Inherited(b, Resolve(es, targets));
      b.Keys <= r.Keys && (|ValidTargets(targets)| == 0 ==> r == b) &&
      forall j :: 0 <= j < |ValidTargets(targets)| ==>
        var p := ContextOf(es[ValidTargets(targets)[j]]).baggage;
        p.Keys <= r.Keys && (|ValidTargets(targets)| == 1 ==> r == b + p)
    decreases |targets|
  {
    ValidTargetsBelow(targets, |es|);
    if |targets| > 0 {
      var t := targets[0];
      var c := if t.1.Some? then b + ContextOf(es[t.1.value]).baggage else b;
      InheritedFrom(es, targets[1..], c);
    }
  }

  /** Everything that reaches `x` since the first `n` entities has the keys that `x` had, or its bindings. */
  predicate Hold(w: World, n: nat, x: nat, b: Baggage, single: bool)
    requires Valid(w)
  {
    forall y :: 0 <= y < |w.entities| && Reaches(w, n, x, y, single) ==>
      b.Keys <= ContextOf(w.entities[y]).baggage.Keys && (single ==> Within(b, ContextOf(w.entities[y]).baggage))
  }

  lemma {:induction false} ReachesStable(w: World, w': World, n: nat, x: nat, y: nat, single: bool)
    requires Valid(w) && Valid(w') && w.parents <= w'.parents && w.intact <= w'.intact && y < |w.entities|
    ensures Reaches(w', n, x, y, single) == Reaches(w, n, x, y, single)
    decreases y
  {
    assert w'.parents[y] == w.parents[y] && w'.intact[y] == w.intact[y];
    forall j | 0 <= j < |w.parents[y]|
      ensures Reaches(w', n, x, w.parents[y][j], single) == Reaches(w, n, x, w.parents[y][j], single)
    {
      ReachesStable(w, w', n, x, w.parents[y][j], single);
    }
  }

  lemma StepBaggage(w: World, event: Event, y: nat)
    requires Possible(w, event) && y < |w.entities|
    ensures y < |Step(w, event).entities|
    ensures var was, now := ContextOf(w.entities[y]).baggage, ContextOf(Step(w, event).entities[y]).baggage;
      was.Keys <= now.Keys && Within(was, now)
  {
    assert PossibleRun(w, [event]) by { assert [event][1..] == []; }
    BaggageStays(w, [event], y);
    assert Run(w, [event]) == Step(w, event) by { assert [event][1..] == []; }
  }

  lemma HoldStep(w: World, event: Event, n: nat, x: nat, b: Baggage, single: bool)
    requires Valid(w) && Possible(w, event) && x < n <= |w.entities| && Hold(w, n, x, b, single)
    ensures Valid(Step(w, event)) && Hold(Step(w, event), n, x, b, single)
  {
    hide Step, Possible;
    var w' := Step(w, event);
    StepKeepsValid(w, event);
    NewBaggage(w, event);
    forall y | 0 <= y < |w'.entities| && Reaches(w', n, x, y, single)
      ensures b.Keys <= ContextOf(w'.entities[y]).baggage.Keys
      ensures single ==> Within(b, ContextOf(w'.entities[y]).baggage)
    {
      if y < |w.entities| {
        ReachesStable(w, w', n, x, y, single);
        StepBaggage(w, event, y);
      } else {
        var j :| 0 <= j < |w'.parents[y]| && Reaches(w', n, x, w'.parents[y][j], single);
        ReachesStable(w, w', n, x, w'.parents[y][j], single);
      }
    }
  }

  lemma {:induction false} HoldRun(w: World, events: seq<Event>, n: nat, x: nat, b: Baggage, single: bool)
    requires Valid(w) && PossibleRun(w, events) && x < n <= |w.entities| && Hold(w, n, x, b, single)
    ensures Valid(Run(w, events)) && Hold(Run(w, events), n, x, b, single)
    decreases |events|
  {
    hide Step, Possible, Hold;
    if |events| > 0 {
      HoldStep(w, events[0], n, x, b, single);
      StepKeepsValid(w, events[0]);
      HoldRun(Step(w, events[0]), events[1..], n, x, b, single);
    }
  }

  lemma HoldAtFirst(w: World, x: nat, single: bool)
    requires Valid(w) && x < |w.entities|
    ensures Hold(w, |w.entities|, x, ContextOf(w.entities[x]).baggage, single)
  {
  }

  /**
    What an entity holds when a path to a later one branches off is held at its
    end: of every binding the key; and when each entity on the path has one
    parent, the binding itself. Clones and transports are links of the path like
    any other.
   */
  lemma DescendantsHold(w: World, events: seq<Event>, x: nat, y: nat, single: bool)
    requires Valid(w) && PossibleRun(w, events) && x < |w.entities|
    requires Valid(Run(w, events)) && y < |Run(w, events).entities|
    requires Reaches(Run(w, events), |w.entities|, x, y, single)
    ensures var b, d := ContextOf(w.entities[x]).baggage, ContextOf(Run(w, events).entities[y]).baggage;
      b.Keys <= d.Keys && (single ==> Within(b, d))
  {
    hide Run, Reaches, Within;
    HoldAtFirst(w, x, single);
    HoldRun(w, events, |w.entities|, x, ContextOf(w.entities[x]).baggage, single);
  }

  // ---------- Traces ----------

  /** Follows first valid references, clones and transports back to a span that has none. */
  function Root(w: World, i: nat): (r: nat)
    requires Valid(w) && i < |w.entities|
    ensures r <= i && w.parents[r] == []
    decreases i
  {
    if w.parents[i] == [] then i else Root(w, w.parents[i][0])
  }

  function TraceId(w: World, i: nat): UInt64
    requires i < |w.entities|
  {
    ContextOf(w.entities[i]).traceId
  }

  lemma {:induction false} RootStable(w: World, w': World, i: nat)
    requires Valid(w) && Valid(w') && w.parents <= w'.parents && i < |w.entities|
    ensures Root(w', i) == Root(w, i)
    decreases i
  {
    assert w'.parents[i] == w.parents[i];
    if w.parents[i] != [] {
      RootStable(w, w', w.parents[i][0]);
    }
  }

  /** The trace identifiers generated during a run are new each time. */
  predicate FreshIds(w: World, events: seq<Event>) {
    (forall i, j :: 0 <= i < j < |events| && events[i].Start? && events[j].Start? ==>
      events[i].traceId != events[j].traceId) &&
    forall i, j :: 0 <= i < |events| && events[i].Start? && 0 <= j < |w.entities| ==>
      TraceId(w, j) != events[i].traceId
  }

  /** Two entities share a trace identifier exactly when they have the same root. */
  predicate Forest(w: World)
    requires Valid(w)
  {
    forall i, j :: 0 <= i < |w.entities| && 0 <= j < |w.entities| ==>
      (TraceId(w, i) == TraceId(w, j) <==> Root(w, i) == Root(w, j))
  }

  // ---------- What a new span is ----------

  lemma {:induction false} StoredReferences(es: seq<Entity>, targets: seq<Target>)
    requires forall j :: 0 <= j < |targets| && targets[j].1.Some? ==> targets[j].1.value < |es|
    ensures var rs := References(Resolve(es, targets)); var valid := DropInvalid(targets);
      |rs| == |valid| == |ValidTargets(targets)| &&
      (forall j :: 0 <= j < |valid| ==> valid[j].1.Some? && valid[j].1.value < |es|) &&
      forall j :: 0 <= j < |valid| ==>
        var c := ContextOf(es[valid[j].1.value]);
        ValidTargets(targets)[j] == valid[j].1.value && rs[j] == SpanReferenceData(valid[j].0, c.traceId, c.spanId)
  {
    hide ContextOf;
    if |targets| > 0 {
      var t, rest := targets[0], targets[1..];
      StoredReferences(es, rest);
      if t.1.Some? {
        var c := ContextOf(es[t.1.value]);
        assert References(Resolve(es, targets)) ==
          [SpanReferenceData(t.0, c.traceId, c.spanId)] + References(Resolve(es, rest));
        assert DropInvalid(targets) == [t] + DropInvalid(rest);
        assert ValidTargets(targets) == [t.1.value] + ValidTargets(rest);
        hide References, Resolve, DropInvalid, ValidTargets;
      } else {
        assert References(Resolve(es, targets)) == References(Resolve(es, rest));
      }
    }
  }

  lemma FirstReference(es: seq<Entity>, targets: seq<Target>)
    requires forall j :: 0 <= j < |targets| && targets[j].1.Some? ==> targets[j].1.value < |es|
    ensures var rs := References(Resolve(es, targets)); var parents := ValidTargets(targets);
      |rs| == |parents| &&
      (forall j :: 0 <= j < |parents| ==> parents[j] < |es|) &&
      forall j :: 0 <= j < |parents| ==>
        var c := ContextOf(es[parents[j]]);
        rs[j].traceId == c.traceId && rs[j].spanId == c.spanId
  {
    hide ContextOf, References, Resolve, ValidTargets, DropInvalid;
    StoredReferences(es, targets);
  }

  /** A start adds one span and changes nothing else; every field of the span, by itself. */
  lemma StartExactly(w: World, event: Event)
    requires event.Start? && Possible(w, event)
    ensures var w' := Step(w, event); var n := |w.entities|;
      |w'.entities| == n + 1 && w'.entities[..n] == w.entities && w'.recorded == w.recorded && w'.entities[n].Live?
    ensures var s := Step(w, event).entities[|w.entities|].span; var options := event.options;
      var valid := DropInvalid(options.references);
      s.context.spanId == event.spanId &&
      s.data.operationName == event.name &&
      |s.data.references| == |valid| &&
      (forall j :: 0 <= j < |valid| ==> valid[j].1.value < |w.entities|) &&
      (forall j :: 0 <= j < |valid| ==>
        var c := ContextOf(w.entities[valid[j].1.value]);
        s.data.references[j] == SpanReferenceData(valid[j].0, c.traceId, c.spanId)) &&
      s.context.traceId == (if |valid| == 0 then event.traceId
        else ContextOf(w.entities[valid[0].1.value]).traceId) &&
      (forall k :: Lookup(s.context.baggage, k) == LastBinding(Resolve(w.entities, options.references), k)) &&
      (forall k :: Lookup(s.data.tags, k) == LastPair(options.tags, k)) &&
      s.data.logs == [] && !s.finished
    ensures var s := Step(w, event).entities[|w.entities|].span; var start, now := event.options.start, event.now;
      (start.system != 0 ==> s.data.startTimestamp == start.system) &&
      (start.steady != 0 ==> s.startSteady == start.steady) &&
      (start.system == 0 && start.steady == 0 ==> s.data.startTimestamp == now.system && s.startSteady == now.steady) &&
      (start.system == 0 || start.steady == 0 ==>
        Wrap(s.data.startTimestamp - now.system) == Wrap(s.startSteady - now.steady))
  {
    hide Inherited, ComputeStartTimestamps, Resolve, References, ValidTargets, DropInvalid, LastBinding, LastPair,
      AssignAll, Wrap, Lookup, ContextOf;
    var options := event.options;
    StoredReferences(w.entities, options.references);
    StartTimesAgree(options.start, event.now);
    forall k ensures
        Lookup(Inherited(map[], Resolve(w.entities, options.references)), k)
          == LastBinding(Resolve(w.entities, options.references), k) &&
        Lookup(AssignAll<Value>(map[], options.tags), k) == LastPair(options.tags, k)
    {
      LastReferenceWins(Resolve(w.entities, options.references), k);
      LastPairWins<Value>(options.tags, k);
    }
  }

  /** A clone and an arriving context are as they came; nothing else changes. */
  lemma DetachedExactly(w: World, event: Event)
    requires (event.Clone? || event.Transport?) && Possible(w, event)
    ensures var w' := Step(w, event); var n := |w.entities|; var c := ContextOf(w.entities[event.i]);
      n <= |w'.entities| <= n + 1 && w'.entities[..n] == w.entities && w'.recorded == w.recorded &&
      (event.Clone? ==> w'.entities == w.entities + [Detached(c)]) &&
      (event.Transport? && Carriable(c, event.from, event.to, event.channel) ==>
        w'.entities == w.entities + [Detached(c)])
  {
    hide Received, Carriable;
    if event.Transport? {
      ReceivedIds(ContextOf(w.entities[event.i]), event.from, event.to, event.channel);
    }
  }

  // ---------- Span identifiers ----------

  /** No two spans share an identifier, and none has one that is still to come. */
  predicate DistinctSpans(w: World, events: seq<Event>) {
    (forall i, j :: 0 <= i < j < |w.entities| && w.entities[i].Live? && w.entities[j].Live? ==>
      SpanId(w, i) != SpanId(w, j)) &&
    (forall i, j :: 0 <= i < j < |events| && events[i].Start? && events[j].Start? ==>
      events[i].spanId != events[j].spanId) &&
    forall i, j :: 0 <= i < |events| && events[i].Start? && 0 <= j < |w.entities| && w.entities[j].Live? ==>
      SpanId(w, j) != events[i].spanId
  }

  function SpanId(w: World, i: nat): UInt64
    requires i < |w.entities|
  {
    ContextOf(w.entities[i]).spanId
  }

  lemma StepSpanIds(w: World, event: Event)
    requires Possible(w, event)
    ensures var w' := Step(w, event); var n := |w.entities|;
      n <= |w'.entities| <= n + 1 &&
      (forall y :: 0 <= y < n ==>
        SpanId(w', y) == SpanId(w, y) && w'.entities[y].Live? == w.entities[y].Live?) &&
      (|w'.entities| == n + 1 && w'.entities[n].Live? ==> event.Start? && SpanId(w', n) == event.spanId)
  {
    hide Received, Carriable, Inherited, ComputeStartTimestamps, References, Resolve, ValidTargets, AssignAll, Records;
  }

  lemma DistinctStep(w: World, events: seq<Event>)
    requires |events| > 0 && Possible(w, events[0]) && DistinctSpans(w, events)
    ensures DistinctSpans(Step(w, events[0]), events[1..])
  {
    hide Step, Possible;
    StepSpanIds(w, events[0]);
    assert forall i :: 0 <= i < |events[1..]| ==> events[1..][i] == events[i + 1];
  }

  lemma {:induction false} DistinctRun(w: World, events: seq<Event>)
    requires PossibleRun(w, events) && DistinctSpans(w, events)
    ensures DistinctSpans(Run(w, events), [])
    decreases |events|
  {
    hide Step, Possible, DistinctSpans;
    if |events| > 0 {
      DistinctStep(w, events);
      DistinctRun(Step(w, events[0]), events[1..]);
    } else {
      assert events == [];
    }
  }

  /** With a source of fresh identifiers, no two spans of any run share a span identifier. */
  lemma SpanIdsDistinct(events: seq<Event>, x: nat, y: nat)
    requires PossibleRun(EMPTY_WORLD, events)
    requires forall i, j :: 0 <= i < j < |events| && events[i].Start? && events[j].Start? ==>
      events[i].spanId != events[j].spanId
    ensures var w := Run(EMPTY_WORLD, events);
      x < y < |w.entities| && w.entities[x].Live? && w.entities[y].Live? ==>
      SpanId(w, x) != SpanId(w, y)
  {
    DistinctRun(EMPTY_WORLD, events);
    hide Run, PossibleRun;
  }

  // ---------- Trace identifiers ----------

  /** A new entity has its first parent's trace identifier, or a generated one. */
  lemma NewTraceId(w: World, event: Event)
    requires Valid(w) && Possible(w, event)
    ensures Valid(Step(w, event))
    ensures var w' := Step(w, event); var n := |w.entities|;
      |w'.entities| <= n + 1 && (|w'.entities| == n + 1 ==>
        if w'.parents[n] == [] then event.Start? && TraceId(w', n) == event.traceId
        else TraceId(w', n) == TraceId(w, w'.parents[n][0]))
  {
    StepKeepsValid(w, event);
    hide Received, Inherited, ComputeStartTimestamps, Resolve, References, ValidTargets;
    match event {
      case Start(_, options, _, _, _) => FirstReference(w.entities, options.references);
      case Transport(i, from, to, channel) => ReceivedIds(ContextOf(w.entities[i]), from, to, channel);
      case _ =>
    }
  }

  lemma StepTraceIds(w: World, event: Event, y: nat)
    requires Possible(w, event) && y < |w.entities|
    ensures y < |Step(w, event).entities| && TraceId(Step(w, event), y) == TraceId(w, y)
  {
    hide Started, Received;
  }

  lemma ForestStep(w: World, events: seq<Event>)
    requires |events| > 0 && Valid(w) && Possible(w, events[0]) && Forest(w) && FreshIds(w, events)
    ensures Valid(Step(w, events[0])) && Forest(Step(w, events[0]))
  {
    hide Step, Possible;
    var w' := Step(w, events[0]);
    var n := |w.entities|;
    StepKeepsValid(w, events[0]);
    NewTraceId(w, events[0]);
    forall i | 0 <= i < n ensures TraceId(w', i) == TraceId(w, i) && Root(w', i) == Root(w, i) {
      StepTraceIds(w, events[0], i);
      RootStable(w, w', i);
    }
    if |w'.entities| == n + 1 && w'.parents[n] == [] {
      assert Root(w', n) == n;
      forall i | 0 <= i < n ensures TraceId(w', i) != TraceId(w', n) {
      }
    }
  }

  lemma FreshLater(w: World, events: seq<Event>)
    requires |events| > 0 && Valid(w) && Possible(w, events[0]) && FreshIds(w, events)
    ensures FreshIds(Step(w, events[0]), events[1..])
  {
    hide Step, Possible;
    var w' := Step(w, events[0]);
    NewTraceId(w, events[0]);
    forall i, j | 0 <= i < |events[1..]| && events[1..][i].Start? && 0 <= j < |w'.entities|
      ensures TraceId(w', j) != events[1..][i].traceId
    {
      assert events[1..][i] == events[i + 1];
      if j < |w.entities| {
        StepTraceIds(w, events[0], j);
      }
    }
  }

  lemma {:induction false} ForestRun(w: World, events: seq<Event>)
    requires Valid(w) && PossibleRun(w, events) && Forest(w) && FreshIds(w, events)
    ensures Valid(Run(w, events)) && Forest(Run(w, events))
    decreases |events|
  {
    hide Step, Possible, Forest, FreshIds;
    if |events| > 0 {
      ForestStep(w, events);
      FreshLater(w, events);
      ForestRun(Step(w, events[0]), events[1..]);
    }
  }

  /**
    The trace forest. With a source of fresh identifiers, two spans or contexts of
    any run share a trace identifier exactly when they reach the same root, and
    clones and transports are no breaks on the way.
   */
  lemma TraceForest(events: seq<Event>, x: nat, y: nat)
    requires PossibleRun(EMPTY_WORLD, events)
    requires forall i, j :: 0 <= i < j < |events| && events[i].Start? && events[j].Start? ==>
      events[i].traceId != events[j].traceId
    ensures Valid(Run(EMPTY_WORLD, events))
    ensures var w := Run(EMPTY_WORLD, events);
      x < |w.entities| && y < |w.entities| ==>
      (TraceId(w, x) == TraceId(w, y) <==> Root(w, x) == Root(w, y))
  {
    ForestRun(EMPTY_WORLD, events);
    hide Run, PossibleRun, Root;
  }
}
