/** `InjectImpl`, `ExtractImpl` and the tracer of mocktracer/src/tracer.cpp. */
module Tracers {
  import opened Wrappers
  import opened Errors
  import opened Bytes
  import opened SpanData
  import opened Streams
  import opened JsonRecorders
  import opened MockSpans
  import SpanRuns
  import TextMap
  import TextMapLaws
  import Wire
  import WireLaws

  datatype PropagationOptions =
    PropagationOptions(key: ByteString, injectError: ErrorCode, extractError: ErrorCode)

  datatype Writer =
    | StreamWriter(stream: OStream)
    | TextMapWriter(entries: TextMap.Writer)
    | HTTPHeadersWriter(entries: TextMap.Writer)

  datatype Reader =
    | StreamReader(stream: IStream)
    | TextMapReader(entries: TextMap.Reader)
    | HTTPHeadersReader(entries: TextMap.Reader)

  /** What a carrier lets be read. */
  datatype View =
    | StreamView(stream: In)
    | TextMapView(entries: TextMap.Reader)
    | HTTPHeadersView(entries: TextMap.Reader)

  function Frame(w: Writer): set<object> {
    match w
    case StreamWriter(stream) => {stream}
    case TextMapWriter(entries) => {entries}
    case HTTPHeadersWriter(entries) => {entries}
  }

  function ReaderFrame(r: Reader): set<object> {
    if r.StreamReader? then {r.stream} else {}
  }

  function ViewOf(r: Reader): View
    reads if r.StreamReader? then {r.stream} else {}
    requires r.StreamReader? ==> r.stream.Valid()
  {
    match r
    case StreamReader(stream) => StreamView(stream.State())
    case TextMapReader(entries) => TextMapView(entries)
    case HTTPHeadersReader(entries) => HTTPHeadersView(entries)
  }

  type ExtractResult = TextMap.Outcome<Result<Option<SpanContextData>, ErrorCode>>

  /** Error, null or a context, from what the codec returned and left in the new context. */
  function Answer(data: SpanContextData, r: TextMap.Outcome<Result<bool, ErrorCode>>): ExtractResult {
    match r
    case LengthErrorThrown => TextMap.LengthErrorThrown
    case Returned(Err(error)) => TextMap.Returned(Err(error))
    case Returned(Ok(found)) => TextMap.Returned(Ok(if found then Some(data) else None))
  }

  function Extracting(e: Endian, options: PropagationOptions, v: View): ExtractResult {
    if options.extractError.value != 0 then TextMap.Returned(Err(options.extractError))
    else
      match v
      case StreamView(stream) =>
        var x := Wire.Extraction(e, stream, EMPTY_CONTEXT);
        Answer(x.data, TextMap.Returned(x.result))
      case TextMapView(entries) =>
        var x := TextMap.Extraction(e, options.key, entries, TextMap.EqualTo, EMPTY_CONTEXT);
        Answer(x.data, x.result)
      case HTTPHeadersView(entries) =>
        var x := TextMap.Extraction(e, options.key, entries, TextMap.IEquals, EMPTY_CONTEXT);
        Answer(x.data, x.result)
  }

  class MockTracer {
    const recorder: JsonRecorder?
    const options: PropagationOptions

    constructor (recorder: JsonRecorder?, options: PropagationOptions)
      ensures this.recorder == recorder && this.options == options
    {
      this.recorder, this.options := recorder, options;
    }

    method StartSpanWithOptions(
        name: string, start: StartOptions<Reference>, now: Times, traceId: UInt64, spanId: UInt64)
      returns (span: MockSpan)
      ensures fresh(span) && fresh(span.spanContext) && span.recorder == recorder
      ensures span.State() ==
        Started(name, StartOptions(start.start, old(LookAll(start.references)), start.tags), now, traceId, spanId)
    {
      span := new MockSpan(recorder, name, start, now, traceId, spanId);
    }

    method Close()
      requires recorder != null ==> recorder.Valid()
      modifies recorder, if recorder == null then null else recorder.out
      ensures recorder != null ==> recorder.Valid() && recorder.State() == Next(old(recorder.State()), Call.Close)
    {
      if recorder != null {
        recorder.Close();
      }
    }

    /**
      An error set in the options comes first, then a foreign context; neither
      touches the carrier. Otherwise the codec's result is the result.
     */
    method Inject(e: Endian, context: ContextPointer, writer: Writer) returns (r: Result<Unit, ErrorCode>)
      requires !context.Null? && (writer.StreamWriter? ==> writer.stream.Valid())
      modifies Frame(writer)
      ensures writer.StreamWriter? ==> writer.stream.Valid()
      ensures options.injectError.value != 0 ==> r == Err(options.injectError)
      ensures options.injectError.value == 0 && context.Foreign? ==> r == Err(INVALID_SPAN_CONTEXT)
      ensures options.injectError.value != 0 || context.Foreign? ==>
        if writer.StreamWriter? then unchanged(writer.stream) else unchanged(writer.entries)
      ensures options.injectError.value == 0 && context.Mock? && writer.StreamWriter? ==>
        var c := old(context.context.data);
        writer.stream.State() == Put(old(writer.stream.State()), Wire.Encoding(e, c)) &&
        (r == Ok(Unit) <==> old(writer.stream.good) && old(writer.stream.State()).Fits(Wire.Encoding(e, c))) &&
        (r.Err? ==> r.error == IO_ERROR)
      ensures options.injectError.value == 0 && context.Mock? && !writer.StreamWriter? ==>
        var c := old(context.context.data);
        if writer.entries.refusal.Some? then
          r == Err(writer.entries.refusal.value) && writer.entries.entries == old(writer.entries.entries)
        else
          r == Ok(Unit) &&
          writer.entries.entries ==
            TextMap.WithEntry(old(writer.entries.entries), options.key, TextMap.ContextText(e, c))
    {
      if options.injectError.value != 0 {
        return Err(options.injectError);
      }
      if context.Foreign? {
        return Err(INVALID_SPAN_CONTEXT);
      }
      var c := context.context.data;
      match writer {
        case StreamWriter(stream) => r := Wire.InjectSpanContext(e, stream, c);
        case TextMapWriter(entries) => r := TextMap.InjectSpanContext(e, options.key, entries, c);
        case HTTPHeadersWriter(entries) => r := TextMap.InjectSpanContext(e, options.key, entries, c);
      }
    }

    /**
      The configured error comes first and leaves the carrier alone. The context is
      a new object; on an error it is dropped with whatever was read into it.
     */
    method Extract(e: Endian, reader: Reader)
      returns (context: MockSpanContext?, r: TextMap.Outcome<Result<Unit, ErrorCode>>)
      requires reader.StreamReader? ==> reader.stream.Valid()
      modifies ReaderFrame(reader)
      ensures reader.StreamReader? ==> reader.stream.Valid()
      ensures options.extractError.value != 0 ==>
        context == null && r == TextMap.Returned(Err(options.extractError)) &&
        (reader.StreamReader? ==> unchanged(reader.stream))
      ensures context != null ==> fresh(context) && r == TextMap.Returned(Ok(Unit))
      ensures options.extractError.value == 0 && reader.StreamReader? ==>
        var x := Wire.Extraction(e, old(reader.stream.State()), EMPTY_CONTEXT);
        (x.result.Err? ==> context == null && r == TextMap.Returned(Err(x.result.error))) &&
        (x.result == Ok(false) ==> context == null && r == TextMap.Returned(Ok(Unit))) &&
        (x.result == Ok(true) ==> context != null && context.data == x.data)
      ensures options.extractError.value == 0 && !reader.StreamReader? ==>
        var compare := if reader.TextMapReader? then TextMap.EqualTo else TextMap.IEquals;
        var x := TextMap.Extraction(e, options.key, reader.entries, compare, EMPTY_CONTEXT);
        (x.result.LengthErrorThrown? ==> context == null && r.LengthErrorThrown?) &&
        (x.result.Returned? && x.result.value.Err? ==>
          context == null && r == TextMap.Returned(Err(x.result.value.error))) &&
        (x.result == TextMap.Returned(Ok(false)) ==> context == null && r == TextMap.Returned(Ok(Unit))) &&
        (x.result == TextMap.Returned(Ok(true)) ==> context != null && context.data == x.data)
      ensures var x := Extracting(e, options, old(ViewOf(reader)));
        match x
        case LengthErrorThrown => context == null && r == TextMap.LengthErrorThrown
        case Returned(Err(error)) => context == null && r == TextMap.Returned(Err(error))
        case Returned(Ok(None)) => context == null && r == TextMap.Returned(Ok(Unit))
        case Returned(Ok(Some(c))) =>
          context != null && fresh(context) && context.data == c && r == TextMap.Returned(Ok(Unit))
      ensures reader.StreamReader? && options.extractError.value == 0 ==>
        reader.stream.State() == Wire.Extraction(e, old(reader.stream.State()), EMPTY_CONTEXT).stream
    {
      hide Wire.Extraction, TextMap.Extraction;
      if options.extractError.value != 0 {
        return null, TextMap.Returned(Err(options.extractError));
      }
      var spanContext := new MockSpanContext(EMPTY_CONTEXT);
      var data, result;
      match reader {
        case StreamReader(stream) =>
          var answer;
          data, answer := Wire.ExtractSpanContext(e, stream, spanContext.data);
          result := TextMap.Returned(answer);
        case TextMapReader(entries) =>
          data, result := TextMap.ExtractSpanContext(e, options.key, entries, TextMap.EqualTo, spanContext.data);
        case HTTPHeadersReader(entries) =>
          data, result := TextMap.ExtractSpanContext(e, options.key, entries, TextMap.IEquals, spanContext.data);
      }
      spanContext.data := data;
      match result {
        case LengthErrorThrown => return null, TextMap.LengthErrorThrown;
        case Returned(Err(error)) => return null, TextMap.Returned(Err(error));
        case Returned(Ok(found)) =>
          return if found then spanContext else null, TextMap.Returned(Ok(Unit));
      }
    }
  }

  // ---------- Laws ----------

  /** Extracting an injected context from a stream gives exactly it, if and only if its sizes fit. */
  lemma StreamRoundTrip(e: Endian, options: PropagationOptions, c: SpanContextData)
    requires options.extractError.value == 0
    ensures Extracting(e, options, StreamView(Fresh(Wire.Encoding(e, c)))) == TextMap.Returned(Ok(Some(c)))
      <==> Wire.Fits(c)
  {
    hide Wire.Extraction, Wire.Encoding, Wire.Fits;
    WireLaws.RoundTripExactly(e, c);
  }

  /**
    The same for headers, after any re-casing and re-ordering of them, where a
    carrier that looks names up needs the very name.
   */
  lemma HeadersRoundTrip(
      e: Endian, options: PropagationOptions, before: seq<TextMap.Entry>, recased: seq<TextMap.Entry>,
      carrier: TextMap.Reader, c: SpanContextData)
    requires options.extractError.value == 0
    requires TextMapLaws.NoVariant(before, options.key)
    requires forall i, j :: 0 <= i < j < |before| ==> before[i].0 != before[j].0
    requires TextMapLaws.Recased(TextMap.WithEntry(before, options.key, TextMap.ContextText(e, c)), recased)
    requires multiset(carrier.entries) == multiset(recased)
    requires carrier.lookup(options.key) == Err(LOOKUP_NOT_SUPPORTED) || TextMapLaws.AnswersFrom(carrier, options.key)
    ensures Extracting(e, options, HTTPHeadersView(carrier)) == TextMap.Returned(Ok(Some(c)))
      <==> Wire.Fits(c) && !TextMapLaws.TextTooLong(e, c) && TextMapLaws.Findable(carrier, options.key)
  {
    hide TextMapLaws.AnswersFrom, TextMapLaws.Findable, TextMapLaws.NoVariant, TextMap.Extraction, TextMap.ContextText,
      TextMapLaws.TextTooLong, Wire.Fits, TextMap.WithEntry,
      TextMap.Matches, TextMapLaws.Recased, TextMap.IEquals, Wire.Extraction;
    TextMapLaws.HttpHeadersRoundTrip(e, options.key, before, recased, carrier, c);
  }

  /** A context cut inside its baggage is an error, and nothing of it is exposed. */
  lemma NoPartialContext(e: Endian, options: PropagationOptions, c: SpanContextData, n: nat)
    requires options.extractError.value == 0 && Wire.Fits(c) && 20 <= n < |Wire.Encoding(e, c)|
    ensures Extracting(e, options, StreamView(Fresh(Wire.Encoding(e, c)[..n]))) == TextMap.Returned(Err(IO_ERROR))
  {
    hide Wire.Extraction, Wire.Encoding, Wire.Fits;
    WireLaws.CutInBaggage(e, c, n, EMPTY_CONTEXT);
  }

  /**
    A cut context is taken for one exactly when the cut lies in the header and what
    is left of the count is zero; the context then has what is left of the
    identifiers, and no baggage.
   */
  lemma PartialContextExactly(e: Endian, options: PropagationOptions, c: SpanContextData, n: nat)
    requires options.extractError.value == 0 && Wire.Fits(c) && n < |Wire.Encoding(e, c)|
    ensures var answer := Extracting(e, options, StreamView(Fresh(Wire.Encoding(e, c)[..n])));
      (Exposes(answer) <==> 0 < n < 20 && (n <= 16 || |c.baggage| % Pow256(n - 16) == 0)) &&
      (Exposes(answer) ==> answer.value.value.value == WireLaws.PartialContext(c, n))
  {
    hide Wire.Extraction, Wire.Encoding, Wire.Fits, WireLaws.PartialContext, Pow256;
    WireLaws.Truncation(e, c, n);
  }

  predicate Exposes(answer: ExtractResult) {
    answer.Returned? && answer.value.Ok? && answer.value.value.Some?
  }

  /**
    The same for a value cut in a text or header carrier: at a multiple of four
    characters, where three quarters as many bytes are left of the encoding.
   */
  lemma PartialTextExactly(
      e: Endian, options: PropagationOptions, carrier: TextMap.Reader, headers: bool, c: SpanContextData, j: nat)
    requires options.extractError.value == 0 && Wire.Fits(c) && j < |TextMap.ContextText(e, c)|
    requires var text := TextMap.ContextText(e, c)[..j];
      carrier.lookup(options.key) == Ok(text) ||
      (carrier.lookup(options.key) == Err(LOOKUP_NOT_SUPPORTED) &&
       TextMapLaws.Carries(carrier.entries, options.key, if headers then TextMap.IEquals else TextMap.EqualTo, text))
    ensures var answer := Extracting(e, options, if headers then HTTPHeadersView(carrier) else TextMapView(carrier));
      (Exposes(answer) <==> j in {4, 8, 12, 16, 20} || (j == 24 && |c.baggage| % 0x1_0000 == 0)) &&
      (Exposes(answer) ==> answer.value.value.value == WireLaws.PartialContext(c, j / 4 * 3))
  {
    hide TextMap.FromText, TextMap.ContextText, TextMapLaws.Carries, TextMap.FirstMatch, Wire.Fits,
      WireLaws.PartialContext, TextMap.IEquals, TextMap.EqualTo;
    var compare := if headers then TextMap.IEquals else TextMap.EqualTo;
    var text := TextMap.ContextText(e, c)[..j];
    if carrier.lookup(options.key) == Err(LOOKUP_NOT_SUPPORTED) {
      TextMapLaws.CarriedIsFound(carrier.entries, options.key, compare, text);
    }
    assert TextMap.LookingUp(carrier, options.key, compare) == Ok(text);
    CutTextResult(e, c, j);
  }

  lemma CutTextResult(e: Endian, c: SpanContextData, j: nat)
    requires Wire.Fits(c) && j < |TextMap.ContextText(e, c)|
    ensures var x := TextMap.FromText(e, TextMap.ContextText(e, c)[..j], EMPTY_CONTEXT);
      x.result != TextMap.Returned(Ok(false)) &&
      (x.result == TextMap.Returned(Ok(true)) <==>
        j in {4, 8, 12, 16, 20} || (j == 24 && |c.baggage| % 0x1_0000 == 0)) &&
      (x.result == TextMap.Returned(Ok(true)) ==> x.data == WireLaws.PartialContext(c, j / 4 * 3))
  {
    hide TextMap.FromText, TextMap.ContextText, Wire.Extraction, Wire.Encoding, Wire.Fits, WireLaws.PartialContext;
    TextMapLaws.CutText(e, c, j, EMPTY_CONTEXT);
    if j % 4 == 0 && 0 < j && !TextMapLaws.CutTooLong(j / 4) {
      WireLaws.Truncation(e, c, j / 4 * 3);
      assert Pow256(2) == 0x1_0000 && Pow256(1) == 256;
    }
  }

  /** Text and header carriers have no span exactly when the key is not found. */
  lemma NoSpanExactly(e: Endian, options: PropagationOptions, carrier: TextMap.Reader, headers: bool)
    requires options.extractError.value == 0
    ensures var answer := Extracting(e, options, if headers then HTTPHeadersView(carrier) else TextMapView(carrier));
      var found := TextMap.LookingUp(carrier, options.key, if headers then TextMap.IEquals else TextMap.EqualTo);
      answer == TextMap.Returned(Ok(None)) <==> found == Err(KEY_NOT_FOUND)
  {
    hide TextMap.LookingUp, TextMap.Extraction, Wire.Extraction, TextMap.IEquals, TextMap.EqualTo;
    AbsentExactly(e, options.key, carrier, if headers then TextMap.IEquals else TextMap.EqualTo);
  }

  lemma AbsentExactly(e: Endian, key: ByteString, carrier: TextMap.Reader, compare: TextMap.Compare)
    ensures TextMap.Extraction(e, key, carrier, compare, EMPTY_CONTEXT).result == TextMap.Returned(Ok(false))
      <==> TextMap.LookingUp(carrier, key, compare) == Err(KEY_NOT_FOUND)
  {
    hide TextMap.LookingUp, TextMap.FromText;
    var found := TextMap.LookingUp(carrier, key, compare);
    if found.Ok? {
      FoundIsNotAbsent(e, found.value);
    }
  }

  lemma FoundIsNotAbsent(e: Endian, value: ByteString)
    ensures TextMap.FromText(e, value, EMPTY_CONTEXT).result != TextMap.Returned(Ok(false))
  {
    hide Wire.ReadWord, Wire.ReadingPairs;
  }

  /** Carrying a context through a stream or a text map is the transport of SpanRuns. */
  lemma TransportIsInjectExtract(
      from: Endian, to: Endian, options: PropagationOptions, c: SpanContextData, carrier: TextMap.Reader)
    requires options.extractError.value == 0
    requires carrier.lookup(options.key) == Ok(TextMap.ContextText(from, c))
    ensures var r := Extracting(to, options, StreamView(Fresh(Wire.Encoding(from, c))));
      SpanRuns.Received(c, from, to, SpanRuns.Stream) == if Exposes(r) then r.value.value else None
    ensures var r := Extracting(to, options, TextMapView(carrier));
      SpanRuns.Received(c, from, to, SpanRuns.TextMap) == if Exposes(r) then r.value.value else None
  {
    hide Wire.Extraction, Wire.Encoding, TextMap.FromText, TextMap.ContextText;
  }
}
