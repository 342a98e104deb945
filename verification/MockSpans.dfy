/**
  Spans and their contexts: mocktracer/src/mock_span.cpp and
  mocktracer/src/mock_span_context.cpp. Each method is proved against a function
  on the abstract state `Span`; SpanRuns says what these functions do over whole
  runs.
 */
module MockSpans {
  import opened Wrappers
  import opened Bytes
  import opened StdMap
  import opened SpanData
  import opened JsonRecorders

  // ---------- Contexts ----------

  type Visitor<!S> = (S, ByteString, ByteString) -> (S, bool)

  /** Calling `f` on one entry after the other until it returns false. */
  function Visiting<S>(items: seq<(ByteString, ByteString)>, f: Visitor<S>, s: S): S {
    if |items| == 0 then s
    else
      var (s', more) := f(s, items[0].0, items[0].1);
      if more then Visiting(items[1..], f, s') else s'
  }

  /**
    The first refusal is the last call. What `f` answers may depend on the state
    that the calls before it leave.
   */
  lemma {:induction false} VisitingStops<S>(items: seq<(ByteString, ByteString)>, n: nat, f: Visitor<S>, s: S)
    requires n < |items|
    requires !f(Visiting(items[..n], f, s), items[n].0, items[n].1).1
    requires forall i: nat :: i < n ==> f(Visiting(items[..i], f, s), items[i].0, items[i].1).1
    ensures Visiting(items, f, s) == f(Visiting(items[..n], f, s), items[n].0, items[n].1).0
    decreases n
  {
    assert items[..0] == [];
    if n > 0 {
      var t, rest := f(s, items[0].0, items[0].1).0, items[1..];
      assert f(Visiting(items[..0], f, s), items[0].0, items[0].1).1;
      forall i: nat | i < n ensures Visiting(items[..i + 1], f, s) == Visiting(rest[..i], f, t) {
        assert items[..i + 1][1..] == rest[..i];
      }
      assert items[..n][1..] == rest[..n - 1];
      forall i: nat | i < n - 1 ensures f(Visiting(rest[..i], f, t), rest[i].0, rest[i].1).1 {
        assert f(Visiting(items[..i + 1], f, s), items[i + 1].0, items[i + 1].1).1;
      }
      VisitingStops(rest, n - 1, f, t);
    }
  }

  /** The callback of `SetSpanReference`. */
  function Assigning(baggage: map<ByteString, ByteString>, key: ByteString, value: ByteString)
    : (map<ByteString, ByteString>, bool)
  {
    (baggage[key := value], true)
  }

  lemma {:induction false} VisitingAssigns(
      baggage: map<ByteString, ByteString>, items: seq<(ByteString, ByteString)>)
    ensures Visiting(items, Assigning, baggage) == AssignAll<ByteString>(baggage, items)
    decreases |items|
  {
    if |items| > 0 {
      VisitingAssigns(baggage[items[0].0 := items[0].1], items[1..]);
    }
  }

  class MockSpanContext {
    var data: SpanContextData

    constructor (data: SpanContextData)
      ensures this.data == data
    {
      this.data := data;
    }

    method ForeachBaggageItem<S>(f: Visitor<S>, s: S) returns (s': S)
      ensures s' == Visiting(Items<ByteString>(data.baggage), f, s)
    {
      hide Items;
      var items := Items<ByteString>(data.baggage);
      s' := s;
      ghost var left := items;
      for i := 0 to |items|
        invariant left == items[i..]
        invariant Visiting(left, f, s') == Visiting(items, f, s)
      {
        var (t, more) := f(s', items[i].0, items[i].1);
        s' := t;
        if !more {
          return;
        }
        left := left[1..];
      }
    }

    /** Move assignment. What it leaves in the other context's baggage is not specified. */
    method Assign(other: MockSpanContext)
      requires other != this
      modifies this, other
      ensures data == old(other.data)
      ensures other.data.traceId == old(other.data.traceId) && other.data.spanId == old(other.data.spanId)
    {
      data := other.data;
      var left: map<ByteString, ByteString> := *;
      other.data := other.data.(baggage := left);
    }

    method CopyData() returns (copy: SpanContextData)
      ensures copy == data
    {
      copy := SpanContextData(data.traceId, data.spanId, data.baggage);
    }

    method Clone() returns (c: MockSpanContext)
      ensures fresh(c) && c.data == data
    {
      var copy := CopyData();
      c := new MockSpanContext(copy);
    }
  }

  // ---------- Times ----------

  /** 64-bit two's complement. */
  function Wrap(x: int): (w: Int64)
    ensures -0x8000_0000_0000_0000 <= x < 0x8000_0000_0000_0000 ==> w == x
  {
    (x + 0x8000_0000_0000_0000) % 0x1_0000_0000_0000_0000 - 0x8000_0000_0000_0000
  }

  /** The two clocks, and pairs of time points on them; 0 is a default-constructed time point. */
  datatype Times = Times(system: Int64, steady: Int64)

  function ComputeStartTimestamps(start: Times, now: Times): Times {
    if start.system == 0 && start.steady == 0 then now
    else if start.system == 0 then Times(Wrap(now.system + Wrap(start.steady - now.steady)), start.steady)
    else if start.steady == 0 then Times(start.system, Wrap(now.steady + Wrap(start.system - now.system)))
    else start
  }

  lemma WrapModulo(x: int)
    ensures (x - Wrap(x)) % 0x1_0000_0000_0000_0000 == 0
  {
  }

  lemma WrapBack(n: Int64, d: Int64)
    ensures Wrap(Wrap(n + d) - n) == d
  {
    var x: int := n + d;
    var w: int := Wrap(x);
    assert w == x || w == x + 0x1_0000_0000_0000_0000 || w == x - 0x1_0000_0000_0000_0000;
  }

  /**
    A given time is kept; a missing one is as far from its clock's present as the
    other is from its own; and when neither is given, both are the present.
   */
  lemma StartTimesAgree(start: Times, now: Times)
    ensures var t := ComputeStartTimestamps(start, now);
      (start.system != 0 ==> t.system == start.system) &&
      (start.steady != 0 ==> t.steady == start.steady) &&
      (start.system == 0 || start.steady == 0 ==>
        Wrap(t.system - now.system) == Wrap(t.steady - now.steady)) &&
      (start.system == 0 && start.steady == 0 ==> t == now)
  {
    hide Wrap;
    WrapBack(now.system, Wrap(start.steady - now.steady));
    WrapBack(now.steady, Wrap(start.system - now.system));
    WrapBack(0, 0);
  }

  // ---------- Abstract spans ----------

  /** A span's fields. */
  datatype Span = Span(context: SpanContextData, startSteady: Int64, finished: bool, data: SpanData)

  /** A reference by its context's data; `None` is a null pointer or a context of another tracer. */
  type Referred = (ReferenceType, Option<SpanContextData>)

  datatype StartOptions<R> = StartOptions(start: Times, references: seq<R>, tags: seq<(ByteString, Value)>)

  function References(rs: seq<Referred>): seq<SpanReferenceData> {
    if |rs| == 0 then []
    else if rs[0].1.None? then References(rs[1..])
    else [SpanReferenceData(rs[0].0, rs[0].1.value.traceId, rs[0].1.value.spanId)] + References(rs[1..])
  }

  /** Baggage of the references, later ones overriding earlier ones. */
  function Inherited(baggage: map<ByteString, ByteString>, rs: seq<Referred>): map<ByteString, ByteString>
    decreases |rs|
  {
    if |rs| == 0 then baggage
    else Inherited(if rs[0].1.Some? then baggage + rs[0].1.value.baggage else baggage, rs[1..])
  }

  function Started(name: string, options: StartOptions<Referred>, now: Times, traceId: UInt64, spanId: UInt64): Span {
    var references := References(options.references);
    var times := ComputeStartTimestamps(options.start, now);
    Span(SpanContextData(if references == [] then traceId else references[0].traceId, spanId,
                         Inherited(map[], options.references)),
         times.steady,
         false,
         SpanData(EMPTY_CONTEXT, references, name, times.system, 0,
                  AssignAll<Value>(map[], options.tags), []))
  }

  datatype FinishOptions = FinishOptions(steady: Int64, logRecords: seq<LogRecord>)

  /** `emplace`: a key that is there keeps its value. */
  function Emplace(m: map<ByteString, ByteString>, key: ByteString, value: ByteString): map<ByteString, ByteString> {
    if key in m then m else m[key := value]
  }

  /** The data a finish records. */
  function Snapshot(s: Span, options: FinishOptions, nowSteady: Int64): SpanData {
    s.data.(logs := s.data.logs + options.logRecords,
            duration := Wrap((if options.steady == 0 then nowSteady else options.steady) - s.startSteady),
            context := s.context)
  }

  /** The calls a span takes. `left` is what a move leaves behind. */
  datatype Op =
    | SetOperationName(name: string)
    | SetTag(key: ByteString, value: Value)
    | Log(record: LogRecord)
    | SetBaggageItem(key: ByteString, text: ByteString)
    | FinishWithOptions(options: FinishOptions, nowSteady: Int64, left: SpanData)

  function After(s: Span, op: Op): Span {
    match op
    case SetOperationName(name) => s.(data := s.data.(operationName := name))
    case SetTag(key, value) => s.(data := s.data.(tags := s.data.tags[key := value]))
    case Log(record) => s.(data := s.data.(logs := s.data.logs + [record]))
    case SetBaggageItem(key, text) => s.(context := s.context.(baggage := Emplace(s.context.baggage, key, text)))
    case FinishWithOptions(_, _, left) => if s.finished then s else s.(finished := true, data := left)
  }

  /** What the call hands to the recorder. */
  function Records(s: Span, op: Op): seq<SpanData> {
    if op.FinishWithOptions? && !s.finished then [Snapshot(s, op.options, op.nowSteady)] else []
  }

  // ---------- Spans ----------

  /** A `const SpanContext*`. */
  datatype ContextPointer = Null | Foreign | Mock(context: MockSpanContext)

  type Reference = (ReferenceType, ContextPointer)

  function Look(p: ContextPointer): Option<SpanContextData>
    reads if p.Mock? then {p.context} else {}
  {
    if p.Mock? then Some(p.context.data) else None
  }

  function Contexts(rs: seq<Reference>): set<MockSpanContext> {
    set i | 0 <= i < |rs| && rs[i].1.Mock? :: rs[i].1.context
  }

  function LookAll(rs: seq<Reference>): (r: seq<Referred>)
    reads Contexts(rs)
    ensures |r| == |rs|
    ensures forall i :: 0 <= i < |rs| ==>
      r[i].0 == rs[i].0 &&
      (rs[i].1.Mock? ==> r[i].1 == Some(rs[i].1.context.data)) && (!rs[i].1.Mock? ==> r[i].1 == None)
  {
    seq(|rs|, i requires 0 <= i < |rs| reads Contexts(rs) => (rs[i].0, Look(rs[i].1)))
  }

  /** Reads one reference; the baggage it holds is assigned over `baggage`. */
  method SetSpanReference(reference: Reference, baggage: map<ByteString, ByteString>)
    returns (found: bool, baggage': map<ByteString, ByteString>, r: SpanReferenceData)
    ensures found <==> reference.1.Mock?
    ensures found ==>
      var c := reference.1.context.data;
      r == SpanReferenceData(reference.0, c.traceId, c.spanId) && baggage' == baggage + c.baggage
    ensures !found ==> baggage' == baggage
  {
    baggage' := baggage;
    r := SpanReferenceData(reference.0, 0, 0);
    match reference.1 {
      case Null => found := false;
      case Foreign => found := false;
      case Mock(context) =>
        r := SpanReferenceData(reference.0, context.data.traceId, context.data.spanId);
        VisitingAssigns(baggage, Items<ByteString>(context.data.baggage));
        AssignAllItems<ByteString>(baggage, context.data.baggage);
        baggage' := context.ForeachBaggageItem(Assigning, baggage);
        found := true;
    }
  }

  lemma ReferencesStep(done: seq<SpanReferenceData>, baggage: map<ByteString, ByteString>, left: seq<Referred>)
    requires |left| > 0
    ensures var c := left[0].1;
      var one := if c.None? then [] else [SpanReferenceData(left[0].0, c.value.traceId, c.value.spanId)];
      done + References(left) == (done + one) + References(left[1..]) &&
      Inherited(baggage, left) == Inherited(if c.None? then baggage else baggage + c.value.baggage, left[1..])
  {
  }

  method ReadReferences(rs: seq<Reference>)
    returns (references: seq<SpanReferenceData>, baggage: map<ByteString, ByteString>)
    ensures references == References(LookAll(rs))
    ensures baggage == Inherited(map[], LookAll(rs))
  {
    references, baggage := [], map[];
    ghost var all := LookAll(rs);
    ghost var left := all;
    for i := 0 to |rs|
      invariant left == all[i..]
      invariant references + References(left) == References(all)
      invariant Inherited(baggage, left) == Inherited(map[], all)
    {
      assert left[0] == (rs[i].0, Look(rs[i].1));
      ReferencesStep(references, baggage, left);
      hide References, Inherited;
      var found, baggage', r := SetSpanReference(rs[i], baggage);
      baggage := baggage';
      if found {
        references := references + [r];
      }
      left := left[1..];
    }
    assert left == [] && references + [] == references;
    SameLooks(rs, all);
  }

  /** Looking again, with the contexts unchanged, is looking once. */
  lemma SameLooks(rs: seq<Reference>, all: seq<Referred>)
    requires |all| == |rs| && forall i :: 0 <= i < |rs| ==> all[i] == (rs[i].0, Look(rs[i].1))
    ensures LookAll(rs) == all
  {
  }

  method ReadTags(tags: seq<(ByteString, Value)>) returns (m: map<ByteString, Value>)
    ensures m == AssignAll<Value>(map[], tags)
  {
    m := map[];
    ghost var left := tags;
    for i := 0 to |tags|
      invariant left == tags[i..]
      invariant AssignAll<Value>(m, left) == AssignAll<Value>(map[], tags)
    {
      m := m[tags[i].0 := tags[i].1];
      left := left[1..];
    }
  }

  class MockSpan {
    const recorder: JsonRecorder?
    const spanContext: MockSpanContext
    var startSteady: Int64
    var isFinished: bool
    var data: SpanData

    function State(): Span
      reads this, spanContext
    {
      Span(spanContext.data, startSteady, isFinished, data)
    }

    predicate Valid()
      reads this, recorder, if recorder == null then {} else {recorder.out}
    {
      recorder != null ==> recorder.Valid()
    }

    /** The clocks and the identifier source are parameters. */
    constructor (recorder: JsonRecorder?, name: string, options: StartOptions<Reference>,
                 now: Times, traceId: UInt64, spanId: UInt64)
      ensures this.recorder == recorder && fresh(spanContext)
      ensures var referred := old(LookAll(options.references));
        State() == Started(name, StartOptions(options.start, referred, options.tags), now, traceId, spanId)
    {
      var times := ComputeStartTimestamps(options.start, now);
      ghost var all := LookAll(options.references);
      var references, baggage := ReadReferences(options.references);
      assert LookAll(options.references) == all;
      var tags := ReadTags(options.tags);
      var context := SpanContextData(if references == [] then traceId else references[0].traceId, spanId, baggage);
      this.recorder := recorder;
      startSteady, isFinished := times.steady, false;
      data := SpanData(EMPTY_CONTEXT, references, name, times.system, 0, tags, []);
      var moved := new MockSpanContext(context);
      spanContext := new MockSpanContext(EMPTY_CONTEXT);
      new;
      spanContext.Assign(moved);
    }

    method SetOperationName(name: string)
      modifies this
      ensures State() == After(old(State()), Op.SetOperationName(name))
    {
      data := data.(operationName := name);
    }

    method SetTag(key: ByteString, value: Value)
      modifies this
      ensures State() == After(old(State()), Op.SetTag(key, value))
    {
      data := data.(tags := data.tags[key := value]);
    }

    method Log(timestamp: Int64, fields: seq<(string, Value)>)
      modifies this
      ensures State() == After(old(State()), Op.Log(LogRecord(timestamp, fields)))
    {
      data := data.(logs := data.logs + [LogRecord(timestamp, fields)]);
    }

    method SetBaggageItem(key: ByteString, text: ByteString)
      modifies spanContext
      ensures State() == After(old(State()), Op.SetBaggageItem(key, text))
    {
      if key !in spanContext.data.baggage {
        spanContext.data := spanContext.data.(baggage := spanContext.data.baggage[key := text]);
      }
    }

    /** The value of a key, and the empty string for a key that is not bound. */
    method BaggageItem(key: ByteString) returns (text: ByteString)
      ensures text == if key in State().context.baggage then State().context.baggage[key] else ""
    {
      if key in spanContext.data.baggage {
        return spanContext.data.baggage[key];
      }
      text := "";
    }

    /** The first call records the snapshot; what the move leaves in `data` is returned as a ghost. */
    method FinishWithOptions(options: FinishOptions, nowSteady: Int64) returns (ghost left: SpanData)
      requires Valid()
      modifies this, recorder
      ensures Valid()
      ensures State() == After(old(State()), Op.FinishWithOptions(options, nowSteady, left))
      ensures recorder != null ==>
        recorder.spans == old(recorder.spans) + Records(old(State()), Op.FinishWithOptions(options, nowSteady, left))
    {
      left := data;
      var was := isFinished;
      isFinished := true;
      if was {
        return;
      }
      data := data.(logs := data.logs + options.logRecords);
      var finish := options.steady;
      if finish == 0 {
        finish := nowSteady;
      }
      data := data.(duration := Wrap(finish - startSteady));
      var copy := spanContext.CopyData();
      data := data.(context := copy);
      if recorder != null {
        recorder.RecordSpan(data);
        data := *;
      }
      left := data;
    }

    /** The destructor finishes a span that nobody has finished, with no option but the present. */
    method Destroy(nowSteady: Int64, nowSteadyLater: Int64) returns (ghost left: SpanData)
      requires Valid()
      modifies this, recorder
      ensures Valid() && isFinished
      ensures recorder != null ==>
        recorder.spans == old(recorder.spans) +
          Records(old(State()), Op.FinishWithOptions(FinishOptions(nowSteady, []), nowSteadyLater, left))
    {
      left := data;
      if !isFinished {
        left := FinishWithOptions(FinishOptions(nowSteady, []), nowSteadyLater);
      }
    }
  }
}
