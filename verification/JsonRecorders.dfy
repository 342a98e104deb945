/** mocktracer/src/json_recorder.cpp: spans are kept until `Close` prints them as one array. */
module JsonRecorders {
  import opened Wrappers
  import opened Seqs
  import opened Streams
  import opened SpanData
  import opened JsonText
  import opened JsonReader
  import opened JsonLaws
  import opened SpanText
  import opened SpanTextLaws

  datatype Sink = Sink(out: Out, hex: bool)

  /** What is on the output stream, if there is one, and the spans not printed yet. */
  datatype RecorderState = RecorderState(sink: Option<Sink>, pending: seq<SpanData>) {
    predicate Valid() {
      sink.Some? ==> sink.value.out.Valid()
    }
  }

  datatype Call = Record(span: SpanData) | Close

  function Next(r: RecorderState, call: Call): (r': RecorderState)
    requires r.Valid()
    ensures r'.Valid()
  {
    match call
    case Record(span) => r.(pending := r.pending + [span])
    case Close =>
      if r.sink.None? then r
      else
        var k := r.sink.value;
        var out := Put(k.out, Document(r.pending, k.hex));
        RecorderState(Some(Sink(out, k.hex || SetsHex(DocumentValue(r.pending)))), [])
  }

  class JsonRecorder {
    const out: OStream?
    var spans: seq<SpanData>

    predicate Valid()
      reads this, out
    {
      out != null ==> out.Valid()
    }

    function State(): (r: RecorderState)
      reads this, out
    {
      RecorderState(if out == null then None else Some(Sink(out.State(), out.hex)), spans)
    }

    constructor (out: OStream?)
      requires out != null ==> out.Valid()
      ensures this.out == out && Valid() && spans == []
    {
      this.out := out;
      spans := [];
    }

    method RecordSpan(span: SpanData)
      requires Valid()
      modifies this
      ensures Valid() && State() == Next(old(State()), Record(span))
    {
      spans := spans + [span];
    }

    method Close()
      requires Valid()
      modifies this, out
      ensures Valid() && State() == Next(old(State()), Call.Close)
    {
      if out == null {
        return;
      }
      ToJson(out, spans);
      spans := [];
    }
  }

  // ---------- Runs ----------

  function Run(r: RecorderState, calls: seq<Call>): (r': RecorderState)
    requires r.Valid()
    ensures r'.Valid()
    decreases |calls|
  {
    if |calls| == 0 then r else Run(Next(r, calls[0]), calls[1..])
  }

  function Recorded(calls: seq<Call>): seq<SpanData> {
    if |calls| == 0 then []
    else (if calls[0].Record? then [calls[0].span] else []) + Recorded(calls[1..])
  }

  /** Without an output stream nothing is ever dropped. */
  lemma {:induction false} NoOutput(pending: seq<SpanData>, calls: seq<Call>)
    ensures Run(RecorderState(None, pending), calls) == RecorderState(None, pending + Recorded(calls))
    decreases |calls|
  {
    if |calls| > 0 {
      var next := Next(RecorderState(None, pending), calls[0]);
      NoOutput(next.pending, calls[1..]);
      if calls[0].Record? {
        assert (pending + [calls[0].span]) + Recorded(calls[1..]) == pending + Recorded(calls);
      }
    }
  }

  // ---------- Conservation ----------

  /** What each `Close` of a run prints. */
  function Batches(pending: seq<SpanData>, calls: seq<Call>): seq<seq<SpanData>>
    decreases |calls|
  {
    if |calls| == 0 then []
    else
      match calls[0]
      case Record(span) => Batches(pending + [span], calls[1..])
      case Close => [pending] + Batches([], calls[1..])
  }

  function Flatten(batches: seq<seq<SpanData>>): seq<SpanData> {
    if |batches| == 0 then [] else batches[0] + Flatten(batches[1..])
  }

  /** The base that an array leaves behind. */
  predicate HexAfter(batch: seq<SpanData>, hex: bool) {
    hex || SetsHex(DocumentValue(batch))
  }

  /** One array after the other, each in the base that the ones before it leave. */
  function Documents(batches: seq<seq<SpanData>>, hex: bool): string
    decreases |batches|
  {
    if |batches| == 0 then "" else Document(batches[0], hex) + Documents(batches[1..], HexAfter(batches[0], hex))
  }

  lemma {:induction false} RunPuts(r: RecorderState, calls: seq<Call>)
    requires r.Valid() && r.sink.Some?
    ensures var end := Run(r, calls); var k := r.sink.value;
      end.sink.Some? && end.sink.value.out == Put(k.out, Documents(Batches(r.pending, calls), k.hex))
    decreases |calls|
  {
    hide Put, Document, HexAfter;
    var k := r.sink.value;
    if |calls| == 0 {
      PutNothing(k.out);
    } else {
      var next := Next(r, calls[0]);
      NextSink(r, calls[0]);
      RunPuts(next, calls[1..]);
      if calls[0].Close? {
        var later := Batches([], calls[1..]);
        PutPut(k.out, Document(r.pending, k.hex), Documents(later, next.sink.value.hex));
        assert ([r.pending] + later)[1..] == later;
      }
    }
  }

  lemma NextSink(r: RecorderState, call: Call)
    requires r.Valid() && r.sink.Some?
    ensures Next(r, call).sink.Some?
    ensures Next(r, call).sink.value.hex ==
      if call.Close? then HexAfter(r.pending, r.sink.value.hex) else r.sink.value.hex
  {
  }

  /** With an output stream, good or not, the arrays followed by the pending spans are all spans. */
  lemma {:induction false} BatchesConserve(r: RecorderState, calls: seq<Call>)
    requires r.Valid() && r.sink.Some?
    ensures Flatten(Batches(r.pending, calls)) + Run(r, calls).pending == r.pending + Recorded(calls)
    decreases |calls|
  {
    hide Put, Document, SetsHex, DocumentValue;
    if |calls| > 0 {
      var next := Next(r, calls[0]);
      BatchesConserve(next, calls[1..]);
      if calls[0].Record? {
        Associate(r.pending, [calls[0].span], Recorded(calls[1..]));
      } else {
        var later := Batches([], calls[1..]);
        assert ([r.pending] + later)[1..] == later;
        Associate(r.pending, Flatten(later), Run(r, calls).pending);
      }
    }
  }

  /**
    Exactly when the sink takes all arrays of a run: there are none, or the stream
    is good before the run and has room for them.
   */
  lemma SinkExactly(k: Sink, pending: seq<SpanData>, calls: seq<Call>)
    requires k.out.Valid()
    ensures var end := Run(RecorderState(Some(k), pending), calls);
      var text := Documents(Batches(pending, calls), k.hex);
      end.sink.Some? &&
      (end.sink.value.out.text == k.out.text + text <==> text == "" || (k.out.good && k.out.Fits(text)))
  {
    hide Run, Documents, Put, Out.Fits;
    RunPuts(RecorderState(Some(k), pending), calls);
    PutExactly(k.out, Documents(Batches(pending, calls), k.hex));
  }

  /**
    Conservation. After any run of calls, the spans in the arrays followed by the
    pending ones are the spans pending before and the recorded ones, once and in
    order; and the sink has got exactly these arrays if and only if there are none,
    or the stream was good before the run and has room for them.
   */
  lemma ArraysConserve(k: Sink, pending: seq<SpanData>, calls: seq<Call>)
    requires k.out.Valid()
    ensures var end := Run(RecorderState(Some(k), pending), calls);
      var batches := Batches(pending, calls); var text := Documents(batches, k.hex);
      Flatten(batches) + end.pending == pending + Recorded(calls) &&
      end.sink.Some? &&
      (end.sink.value.out.text == k.out.text + text <==> text == "" || (k.out.good && k.out.Fits(text)))
  {
    hide Run, Recorded, Flatten, Documents, Batches, Out.Fits;
    SinkExactly(k, pending, calls);
    BatchesConserve(RecorderState(Some(k), pending), calls);
  }

  // ---------- What a reader finds on the sink ----------

  /** Consecutive JSON values up to the end of the text. */
  function ReadAll(t: string): Option<seq<Json>>
    decreases |t|
  {
    if |t| == 0 then Some([])
    else
      match ReadValue(t)
      case None => None
      case Some((v, rest)) =>
        match ReadAll(rest)
        case None => None
        case Some(vs) => Some([v] + vs)
  }

  function SpansJson(spans: seq<SpanData>): seq<Json> {
    ElementsJson(SpanValues(spans))
  }

  /** What the arrays mean. */
  function Arrays(batches: seq<seq<SpanData>>): seq<Json> {
    if |batches| == 0 then [] else [JArray(SpansJson(batches[0]))] + Arrays(batches[1..])
  }

  /** The elements of all arrays in order. */
  function Elements(vs: seq<Json>): seq<Json> {
    if |vs| == 0 then [] else (if vs[0].JArray? then vs[0].items else []) + Elements(vs[1..])
  }

  /** No integer outside 0..9 is printed after a `\u` escape of the same array or of an earlier one. */
  predicate BatchesSafe(batches: seq<seq<SpanData>>, hex: bool)
    decreases |batches|
  {
    |batches| > 0 ==>
      Safe(DocumentValue(batches[0]), hex) && BatchesSafe(batches[1..], HexAfter(batches[0], hex))
  }

  predicate WellFormedBatches(batches: seq<seq<SpanData>>) {
    forall i :: 0 <= i < |batches| ==> WellFormedSpans(batches[i])
  }

  lemma DocumentsDelimited(batches: seq<seq<SpanData>>, hex: bool)
    ensures Delimited(Documents(batches, hex))
  {
    if |batches| > 0 {
      ArrayText(SpanValues(batches[0]), hex, "");
    }
    hide SpanValues, ElementsText, SetsHex;
  }

  /** The first array of a sink, before anything delimited. */
  lemma ReadDocument(spans: seq<SpanData>, hex: bool, more: string)
    requires WellFormedSpans(spans) && Delimited(more)
    ensures |Document(spans, hex) + more| > 0
    ensures var first := ReadValue(Document(spans, hex) + more);
      if Safe(DocumentValue(spans), hex) then first == Some((JArray(SpansJson(spans)), more))
      else first.Some? ==> first.value.0 != JArray(SpansJson(spans))
  {
    hide ReadValue, Text, SpanValues, Safe;
    var v := DocumentValue(spans);
    TextAppend(v, hex, "", more);
    assert "" + more == more;
    TextStarts(v, hex, more);
    if Safe(v, hex) {
      ReadsBack(v, hex, more);
    } else {
      Misread(v, hex, more);
    }
  }

  /**
    A sink of arrays is read back as what they mean if and only if no integer
    outside 0..9 comes after a `\u` escape, be it of the same `Close` or of an
    earlier one.
   */
  lemma {:induction false} DocumentsReadBackExactly(batches: seq<seq<SpanData>>, hex: bool)
    requires WellFormedBatches(batches)
    ensures ReadAll(Documents(batches, hex)) == Some(Arrays(batches)) <==> BatchesSafe(batches, hex)
    decreases |batches|
  {
    hide ReadValue, Document, SpansJson, Safe, DocumentValue, WellFormedSpans, HexAfter, Delimited;
    if |batches| > 0 {
      var b, later, hex1 := batches[0], batches[1..], HexAfter(batches[0], hex);
      var more := Documents(later, hex1);
      assert forall i :: 0 <= i < |later| ==> later[i] == batches[i + 1];
      DocumentsDelimited(later, hex1);
      DocumentsReadBackExactly(later, hex1);
      ReadDocument(b, hex, more);
      assert Documents(batches, hex) == Document(b, hex) + more;
      if ReadAll(Documents(batches, hex)) == Some(Arrays(batches)) {
        assert Arrays(batches)[0] == JArray(SpansJson(b)) && Arrays(batches)[1..] == Arrays(later);
      }
    }
  }

  // ---------- The spans of a run ----------

  lemma {:induction false} SpansJsonAppend(a: seq<SpanData>, b: seq<SpanData>)
    ensures SpansJson(a + b) == SpansJson(a) + SpansJson(b)
  {
    if |a| == 0 {
      assert a + b == b;
    } else {
      assert (a + b)[1..] == a[1..] + b;
      SpansJsonAppend(a[1..], b);
      assert SpanValues(a)[1..] == SpanValues(a[1..]) && SpanValues(a + b)[1..] == SpanValues(a[1..] + b);
    }
  }

  lemma {:induction false} ElementsOfArrays(batches: seq<seq<SpanData>>)
    ensures Elements(Arrays(batches)) == SpansJson(Flatten(batches))
  {
    hide SpansJson;
    if |batches| == 0 {
      NoSpans();
    } else {
      ElementsOfArrays(batches[1..]);
      SpansJsonAppend(batches[0], Flatten(batches[1..]));
      assert Arrays(batches)[1..] == Arrays(batches[1..]);
    }
  }

  lemma NoSpans()
    ensures SpansJson([]) == []
  {
  }

  lemma SpanStep(spans: seq<SpanData>)
    requires |spans| > 0
    ensures WellFormedSpans(spans) == (WellFormed(SpanValue(spans[0])) && WellFormedSpans(spans[1..]))
    ensures SetsHex(DocumentValue(spans)) == (SetsHex(SpanValue(spans[0])) || SetsHex(DocumentValue(spans[1..])))
    ensures forall hex :: Safe(DocumentValue(spans), hex) ==> Safe(SpanValue(spans[0]), hex)
  {
    hide SpanValue;
    var vs := SpanValues(spans);
    var later := vs[1..];
    assert vs[0] == SpanValue(spans[0]) && later == SpanValues(spans[1..]);
    assert WellFormed(Array(vs)) == ElementsWellFormed(vs) && SetsHex(Array(vs)) == ElementsSetHex(vs);
    assert WellFormed(Array(later)) == ElementsWellFormed(later) && SetsHex(Array(later)) == ElementsSetHex(later);
    assert forall hex :: Safe(Array(vs), hex) == ElementsSafe(vs, hex);
  }

  lemma NoDocument()
    ensures WellFormedSpans([]) && !SetsHex(DocumentValue([]))
  {
    var vs := SpanValues([]);
    assert WellFormed(Array(vs)) == ElementsWellFormed(vs) && SetsHex(Array(vs)) == ElementsSetHex(vs);
  }

  predicate EachWellFormed(spans: seq<SpanData>) {
    forall i :: 0 <= i < |spans| ==> WellFormed(SpanValue(spans[i]))
  }

  predicate EachPlain(spans: seq<SpanData>) {
    forall i :: 0 <= i < |spans| ==> !SetsHex(SpanValue(spans[i]))
  }

  lemma {:induction false} EachOfDocument(spans: seq<SpanData>)
    ensures EachWellFormed(spans) ==> WellFormedSpans(spans)
    ensures EachPlain(spans) ==> !SetsHex(DocumentValue(spans))
  {
    hide SpanValue, WellFormedSpans, DocumentValue;
    if |spans| == 0 {
      NoDocument();
    } else {
      EachOfDocument(spans[1..]);
      SpanStep(spans);
    }
  }

  lemma {:induction false} EachOfBatches(batches: seq<seq<SpanData>>)
    ensures EachWellFormed(Flatten(batches)) ==> WellFormedBatches(batches)
    ensures EachPlain(Flatten(batches)) ==> BatchesSafe(batches, false)
  {
    hide SpanValue, WellFormedSpans, DocumentValue, Safe;
    if |batches| > 0 {
      var b, later := batches[0], Flatten(batches[1..]);
      assert forall i :: 0 <= i < |b| ==> Flatten(batches)[i] == b[i];
      assert forall i :: 0 <= i < |later| ==> Flatten(batches)[|b| + i] == later[i];
      assert EachWellFormed(Flatten(batches)) ==> EachWellFormed(b) && EachWellFormed(later);
      assert EachPlain(Flatten(batches)) ==> EachPlain(b) && EachPlain(later);
      EachOfDocument(b);
      EachOfBatches(batches[1..]);
      if EachPlain(Flatten(batches)) {
        DecimalStaysSafe(DocumentValue(b));
      }
      assert forall i :: 0 < i < |batches| ==> batches[i] == batches[1..][i - 1];
    }
  }

  /**
    Conservation as a reader of the sink sees it. Of what a run adds to a stream
    that is good and has room, the reader finds, followed by the pending spans,
    every span once and in order, if and only if no integer outside 0..9 is
    printed after a `\u` escape.
   */
  lemma ReaderFindsAll(k: Sink, pending: seq<SpanData>, calls: seq<Call>)
    requires k.out.Valid() && k.out.good && k.out.Fits(Documents(Batches(pending, calls), k.hex))
    requires EachWellFormed(pending + Recorded(calls))
    ensures var batches := Batches(pending, calls); var end := Run(RecorderState(Some(k), pending), calls);
      Elements(Arrays(batches)) + SpansJson(end.pending) == SpansJson(pending + Recorded(calls)) &&
      end.sink.Some? && k.out.text <= end.sink.value.out.text &&
      (ReadAll(end.sink.value.out.text[|k.out.text|..]) == Some(Arrays(batches)) <==> BatchesSafe(batches, k.hex))
  {
    hide ReadAll, Documents, Recorded, Run, SpansJson, WellFormed, SpanValue, Elements, Arrays, BatchesSafe, Batches,
      Flatten;
    var batches := Batches(pending, calls);
    var end := Run(RecorderState(Some(k), pending), calls);
    var text := Documents(batches, k.hex);
    ArraysConserve(k, pending, calls);
    assert (k.out.text + text)[|k.out.text|..] == text;
    EachOfPrefix(Flatten(batches), end.pending);
    EachOfBatches(batches);
    DocumentsReadBackExactly(batches, k.hex);
    ElementsOfArrays(batches);
    SpansJsonAppend(Flatten(batches), end.pending);
  }

  lemma EachOfPrefix(a: seq<SpanData>, b: seq<SpanData>)
    ensures EachWellFormed(a + b) ==> EachWellFormed(a)
    ensures EachPlain(a + b) ==> EachPlain(a)
  {
    hide SpanValue, WellFormed, SetsHex;
    assert forall i :: 0 <= i < |a| ==> (a + b)[i] == a[i];
  }

  /** Spans that print no `\u` escape are always read back from a stream that starts in decimal. */
  lemma PlainRunSafe(k: Sink, pending: seq<SpanData>, calls: seq<Call>)
    requires k.out.Valid() && EachPlain(pending + Recorded(calls))
    ensures BatchesSafe(Batches(pending, calls), false)
  {
    hide Recorded, Run, SpanValue, SetsHex, BatchesSafe, Batches, Flatten;
    BatchesConserve(RecorderState(Some(k), pending), calls);
    EachOfPrefix(Flatten(Batches(pending, calls)), Run(RecorderState(Some(k), pending), calls).pending);
    EachOfBatches(Batches(pending, calls));
  }

  /** An escape in one `Close` spoils the next: start times from 10 microseconds on are printed in base 16. */
  lemma EscapeReachesNextClose(a: SpanData, b: SpanData)
    requires SetsHex(SpanValue(a)) && Micros(b.startTimestamp) >= 10
    requires WellFormed(SpanValue(a)) && WellFormed(SpanValue(b))
    ensures var batches := Batches([], [Record(a), Close, Record(b), Close]);
      batches == [[a], [b]] && ReadAll(Documents(batches, false)) != Some(Arrays(batches))
  {
    hide ReadAll, Documents, Arrays, SpanValue;
    var calls := [Record(a), Close, Record(b), Close];
    var batches := [[a], [b]];
    assert Batches([], calls) == batches by { FourCalls(a, b); }
    EachOfDocument([a]);
    EachOfDocument([b]);
    SpanStep([a]);
    SpanStep([b]);
    UnsafeStart(b);
    assert batches[1..] == [[b]];
    assert !BatchesSafe([[b]], true);
    DocumentsReadBackExactly(batches, false);
  }

  lemma FourCalls(a: SpanData, b: SpanData)
    ensures Batches([], [Record(a), Close, Record(b), Close]) == [[a], [b]]
  {
    assert [] + [a] == [a] && [] + [b] == [b];
    assert [Record(a), Close, Record(b), Close][1..] == [Close, Record(b), Close];
    assert [Close, Record(b), Close][1..] == [Record(b), Close];
    assert [Record(b), Close][1..] == [Close] && [Close][1..] == [];
    assert Batches([], [Record(b), Close]) == [[b]];
  }

  lemma UnsafeStart(b: SpanData)
    requires Micros(b.startTimestamp) >= 10
    ensures !Safe(SpanValue(b), true)
  {
    hide Micros, ContextValue, ReferenceValues, TagEntries, LogValues;
    var es := SpanValue(b).entries;
    var es1, es2, es3 := es[1..], es[1..][1..], es[1..][1..][1..];
    assert es3[0] == ("start_timestamp", Signed(Micros(b.startTimestamp)));
    assert !Safe(Signed(Micros(b.startTimestamp)), true);
    assert !EntrySafe(es3[0], true);
    assert !EntriesSafe(es3, true);
    assert !EntriesSafe(es2, true);
    assert !EntriesSafe(es1, true);
  }

  /** `Close` does not look at the stream afterwards: on a full sink the pending spans are lost. */
  lemma FullSinkLoses(span: SpanData)
    ensures var end := Run(RecorderState(Some(Sink(Out("", Some(0), true), false)), []), [Record(span), Close]);
      end.pending == [] && end.sink.Some? && end.sink.value.out.text == "" && !end.sink.value.out.good
  {
    var r0 := RecorderState(Some(Sink(Out("", Some(0), true), false)), []);
    var calls := [Record(span), Close];
    assert calls[1..] == [Close] && [Close][1..] == [];
    var r1 := Next(r0, Record(span));
    assert r1.pending == [span];
    ArrayText(SpanValues([span]), false, "");
    hide SpanValues;
    assert |Document([span], false)| > 0;
    assert Run(r1, [Close]) == Run(Next(r1, Close), []);
  }
}
