/**
  What a printed document says, in the names that a reader of it looks for. The
  predicates spell out the objects of mocktracer/src/json.cpp member by member.
 */
module DocumentLaws {
  import opened Wrappers
  import opened Bytes
  import opened StdMap
  import opened SpanData
  import opened JsonText
  import opened JsonReader
  import opened JsonLaws
  import opened JsonCompact
  import opened SpanText
  import opened SpanTextLaws

  // ---------- Numbers ----------

  /** The value of a string of decimal digits. */
  function NaturalOf(s: string): int {
    if |s| == 0 then 0 else 10 * NaturalOf(s[..|s| - 1]) + (s[|s| - 1] as int - 48)
  }

  function IntegerOf(lexeme: string): int {
    if |lexeme| > 0 && lexeme[0] == '-' then -NaturalOf(lexeme[1..]) else NaturalOf(lexeme)
  }

  lemma {:induction false} NaturalOfDigits(n: nat)
    ensures NaturalOf(Digits(n, 10)) == n
    decreases n
  {
    var s := Digits(n, 10);
    if n >= 10 {
      NaturalOfDigits(n / 10);
      assert s[..|s| - 1] == Digits(n / 10, 10);
    } else {
      assert s[..0] == "" && NaturalOf("") == 0;
    }
  }

  /** In decimal an integer is printed by its value; after a `\u` escape by its two's complement in base 16. */
  lemma IntTextValue(i: int)
    requires -0x8000_0000_0000_0000 <= i < 0x1_0000_0000_0000_0000
    ensures IntegerOf(IntText(i, false)) == i
    ensures ValueOf(IntText(i, true)) == if i < 0 then i + 0x1_0000_0000_0000_0000 else i
  {
    var n := if i < 0 then -i else i;
    NaturalOfDigits(n);
    DecimalDigits(n);
    ValueOfDigits(if i < 0 then i + 0x1_0000_0000_0000_0000 else i);
    assert i < 0 ==> IntText(i, false)[1..] == Digits(n, 10);
  }

  // ---------- Values ----------

  predicate MeansValue(j: Json, v: Value)
    decreases v
  {
    match v
    case Bool(b) => j == JBool(b)
    case Number(NaN) => j == JString("NaN")
    case Number(PosInf) => j == JString("+Inf")
    case Number(NegInf) => j == JString("-Inf")
    case Number(Finite(text)) => j == JNumber(text)
    case Signed(i) => j.JNumber? && IntegerOf(j.lexeme) == i
    case Unsigned(u) => j.JNumber? && IntegerOf(j.lexeme) == u
    case String(s) => j == JString(s)
    case Null => j == JNull
    case Array(values) => j.JArray? && MeansElements(j.items, values)
    case Dictionary(entries) => j.JObject? && MeansEntries(j.members, entries)
  }

  predicate MeansElements(items: seq<Json>, values: seq<Value>)
    decreases values
  {
    |items| == |values| &&
    (|values| > 0 ==> MeansValue(items[0], values[0]) && MeansElements(items[1..], values[1..]))
  }

  predicate MeansEntries(members: seq<(string, Json)>, entries: seq<(string, Value)>)
    decreases entries
  {
    |members| == |entries| &&
    (|entries| > 0 ==>
      members[0].0 == entries[0].0 && MeansEntryValue(members[0].1, entries[0]) &&
      MeansEntries(members[1..], entries[1..]))
  }

  predicate MeansEntryValue(j: Json, entry: (string, Value))
    decreases entry
  {
    MeansValue(j, entry.1)
  }

  lemma {:induction false} ValueMeans(v: Value)
    ensures MeansValue(JsonOf(v), v)
    decreases v, 1
  {
    match v {
      case Signed(i) => IntTextValue(i);
      case Unsigned(u) => IntTextValue(u);
      case Array(values) => ElementsMean(values);
      case Dictionary(entries) => EntriesMean(entries);
      case _ =>
    }
  }

  lemma {:induction false} ElementsMean(values: seq<Value>)
    ensures MeansElements(ElementsJson(values), values)
    decreases values
  {
    if |values| > 0 {
      ValueMeans(values[0]);
      ElementsMean(values[1..]);
      assert ElementsJson(values)[1..] == ElementsJson(values[1..]);
    }
  }

  lemma {:induction false} EntryMeans(entry: (string, Value))
    ensures MeansEntryValue(JsonOf(entry.1), entry)
    decreases entry, 0
  {
    ValueMeans(entry.1);
  }

  lemma {:induction false} EntriesMean(entries: seq<(string, Value)>)
    ensures MeansEntries(EntriesJson(entries), entries)
    decreases entries
  {
    if |entries| > 0 {
      EntryMeans(entries[0]);
      EntriesMean(entries[1..]);
      assert EntriesJson(entries)[1..] == EntriesJson(entries[1..]);
    }
  }

  // ---------- Records ----------

  /** Sixteen lower-case digits with the value of the identifier in base 16. */
  predicate MeansId(j: Json, id: UInt64) {
    j.JString? && |j.s| == 16 && (forall i :: 0 <= i < 16 ==> j.s[i] in HEX_DIGITS) && ValueOf(j.s) == id
  }

  /** A number of whole microseconds; the nanoseconds beyond it are fewer than 1000 and have the time's sign. */
  predicate MeansTime(j: Json, nanos: Int64) {
    j.JNumber? &&
    var beyond := nanos - 1000 * IntegerOf(j.lexeme);
    -1000 < beyond < 1000 && (beyond < 0 ==> nanos < 0) && (beyond > 0 ==> nanos > 0)
  }

  /** An object whose members have the given names, in that order. */
  predicate Named(j: Json, names: seq<string>) {
    j.JObject? && |j.members| == |names| && forall i :: 0 <= i < |names| ==> j.members[i].0 == names[i]
  }

  predicate MeansContext(j: Json, c: SpanContextData) {
    Named(j, ["trace_id", "span_id", "baggage"]) &&
    MeansId(j.members[0].1, c.traceId) && MeansId(j.members[1].1, c.spanId) && MeansBaggage(j.members[2].1, c.baggage)
  }

  /** One member for each item, in the order of the keys. */
  predicate MeansBaggage(j: Json, baggage: map<ByteString, ByteString>) {
    var items := Items<ByteString>(baggage);
    j.JObject? && |j.members| == |items| &&
    forall i :: 0 <= i < |items| ==> j.members[i] == (items[i].0, JString(items[i].1))
  }

  predicate MeansReference(j: Json, r: SpanReferenceData) {
    Named(j, ["reference_type", "trace_id", "span_id"]) &&
    (r.kind == ChildOf ==> j.members[0].1 == JString("CHILD_OF")) &&
    (r.kind == FollowsFrom ==> j.members[0].1 == JString("FOLLOWS_FROM")) &&
    MeansId(j.members[1].1, r.traceId) && MeansId(j.members[2].1, r.spanId)
  }

  predicate MeansReferences(j: Json, rs: seq<SpanReferenceData>) {
    j.JArray? && |j.items| == |rs| && forall i :: 0 <= i < |rs| ==> MeansReference(j.items[i], rs[i])
  }

  predicate MeansTags(j: Json, tags: map<ByteString, Value>) {
    var items := Items<Value>(tags);
    j.JObject? && |j.members| == |items| &&
    forall i :: 0 <= i < |items| ==> j.members[i].0 == items[i].0 && MeansValue(j.members[i].1, items[i].1)
  }

  predicate MeansField(j: Json, field: (string, Value)) {
    Named(j, ["key", "value"]) && j.members[0].1 == JString(field.0) && MeansValue(j.members[1].1, field.1)
  }

  predicate MeansFields(j: Json, fields: seq<(string, Value)>) {
    j.JArray? && |j.items| == |fields| && forall i :: 0 <= i < |fields| ==> MeansField(j.items[i], fields[i])
  }

  predicate MeansLog(j: Json, log: LogRecord) {
    Named(j, ["timestamp", "fields"]) &&
    MeansTime(j.members[0].1, log.timestamp) && MeansFields(j.members[1].1, log.fields)
  }

  predicate MeansLogs(j: Json, logs: seq<LogRecord>) {
    j.JArray? && |j.items| == |logs| && forall i :: 0 <= i < |logs| ==> MeansLog(j.items[i], logs[i])
  }

  predicate MeansSpan(j: Json, s: SpanData) {
    Named(j, ["span_context", "references", "operation_name", "start_timestamp", "duration", "tags", "logs"]) &&
    MeansContext(j.members[0].1, s.context) &&
    MeansReferences(j.members[1].1, s.references) &&
    j.members[2].1 == JString(s.operationName) &&
    MeansTime(j.members[3].1, s.startTimestamp) &&
    MeansTime(j.members[4].1, s.duration) &&
    MeansTags(j.members[5].1, s.tags) &&
    MeansLogs(j.members[6].1, s.logs)
  }

  // ---------- The printed trees say so ----------

  lemma {:induction false} DigitsAreHex(n: nat)
    ensures forall i :: 0 <= i < |Digits(n, 16)| ==> Digits(n, 16)[i] in HEX_DIGITS
    decreases n
  {
    DigitIs(n % 16);
    assert HEX_DIGITS[n % 16] in HEX_DIGITS;
    if n >= 16 {
      DigitsAreHex(n / 16);
    }
  }

  lemma IdDigits(id: UInt64)
    ensures forall i :: 0 <= i < |IdText(id)| ==> IdText(id)[i] in HEX_DIGITS
  {
    hide Digits;
    DigitsAreHex(id);
    assert HEX_DIGITS[0] == '0';
  }

  lemma IdMeans(id: UInt64)
    ensures MeansId(JString(IdText(id)), id)
  {
    hide IdText, ValueOf;
    PlainId(id);
    IdTextValue(id);
    IdDigits(id);
  }

  lemma TimeMeans(nanos: Int64)
    ensures MeansTime(JNumber(IntText(Micros(nanos), false)), nanos)
  {
    IntTextValue(Micros(nanos));
    hide IntText, IntegerOf;
  }

  /** The members of an object are those of its entries. */
  lemma Members(entries: seq<(string, Value)>)
    ensures var ms := EntriesJson(entries);
      |ms| == |entries| && forall i :: 0 <= i < |entries| ==> ms[i] == (entries[i].0, JsonOf(entries[i].1))
  {
    forall i | 0 <= i < |entries| ensures EntriesJson(entries)[i] == EntryJson(entries[i]) {
      EntriesJsonAt(entries, i);
    }
    hide EntriesJson;
  }

  lemma Elements(values: seq<Value>)
    ensures |ElementsJson(values)| == |values|
    ensures forall i :: 0 <= i < |values| ==> ElementsJson(values)[i] == JsonOf(values[i])
  {
    forall i | 0 <= i < |values| ensures ElementsJson(values)[i] == JsonOf(values[i]) {
      ElementsJsonAt(values, i);
    }
  }

  lemma {:induction false} StringEntriesAt(items: seq<(ByteString, ByteString)>, i: nat)
    requires i < |items|
    ensures StringEntries(items)[i] == (items[i].0, String(items[i].1))
  {
    if i > 0 {
      StringEntriesAt(items[1..], i - 1);
    }
  }

  lemma BaggageMeans(baggage: map<ByteString, ByteString>)
    ensures MeansBaggage(JsonOf(Dictionary(StringEntries(Items<ByteString>(baggage)))), baggage)
  {
    hide Items, StringEntries, EntriesJson;
    var items := Items<ByteString>(baggage);
    Members(StringEntries(items));
    forall i | 0 <= i < |items| ensures StringEntries(items)[i] == (items[i].0, String(items[i].1)) {
      StringEntriesAt(items, i);
    }
  }

  lemma ContextMeans(c: SpanContextData)
    ensures MeansContext(JsonOf(ContextValue(c)), c)
  {
    hide Items, StringEntries, EntriesJson, MeansId, MeansBaggage, IdText;
    Members(ContextValue(c).entries);
    IdMeans(c.traceId);
    IdMeans(c.spanId);
    BaggageMeans(c.baggage);
  }

  lemma ReferenceMeans(r: SpanReferenceData)
    ensures MeansReference(JsonOf(ReferenceValue(r)), r)
  {
    hide EntriesJson, MeansId, IdText;
    Members(ReferenceValue(r).entries);
    IdMeans(r.traceId);
    IdMeans(r.spanId);
  }

  lemma {:induction false} ReferenceValuesAt(rs: seq<SpanReferenceData>, i: nat)
    requires i < |rs|
    ensures ReferenceValues(rs)[i] == ReferenceValue(rs[i])
  {
    hide ReferenceValue;
    if i > 0 {
      ReferenceValuesAt(rs[1..], i - 1);
    }
  }

  lemma ReferencesMean(rs: seq<SpanReferenceData>)
    ensures MeansReferences(JsonOf(Array(ReferenceValues(rs))), rs)
  {
    hide ReferenceValue, ReferenceValues, ElementsJson, MeansReference;
    Elements(ReferenceValues(rs));
    forall i | 0 <= i < |rs| ensures MeansReference(JsonOf(ReferenceValues(rs)[i]), rs[i]) {
      ReferenceValuesAt(rs, i);
      ReferenceMeans(rs[i]);
    }
  }

  lemma TagsMean(tags: map<ByteString, Value>)
    ensures MeansTags(JsonOf(Dictionary(TagEntries(tags))), tags)
  {
    hide Items, EntriesJson, MeansValue;
    var items := Items<Value>(tags);
    Members(items);
    forall i | 0 <= i < |items| ensures MeansValue(JsonOf(items[i].1), items[i].1) {
      ValueMeans(items[i].1);
    }
  }

  lemma FieldMeans(field: (string, Value))
    ensures MeansField(JsonOf(FieldValue(field)), field)
  {
    hide EntriesJson, MeansValue;
    Members(FieldValue(field).entries);
    ValueMeans(field.1);
  }

  lemma {:induction false} FieldValuesAt(fields: seq<(string, Value)>, i: nat)
    requires i < |fields|
    ensures FieldValues(fields)[i] == FieldValue(fields[i])
  {
    hide FieldValue;
    if i > 0 {
      FieldValuesAt(fields[1..], i - 1);
    }
  }

  lemma FieldsMean(fields: seq<(string, Value)>)
    ensures MeansFields(JsonOf(Array(FieldValues(fields))), fields)
  {
    hide FieldValue, FieldValues, ElementsJson, MeansField;
    Elements(FieldValues(fields));
    forall i | 0 <= i < |fields| ensures MeansField(JsonOf(FieldValues(fields)[i]), fields[i]) {
      FieldValuesAt(fields, i);
      FieldMeans(fields[i]);
    }
  }

  lemma LogMeans(log: LogRecord)
    ensures MeansLog(JsonOf(LogValue(log)), log)
  {
    hide EntriesJson, FieldValues, ElementsJson, MeansTime, MeansFields, Micros, IntText;
    Members(LogValue(log).entries);
    TimeMeans(log.timestamp);
    FieldsMean(log.fields);
  }

  lemma {:induction false} LogValuesAt(logs: seq<LogRecord>, i: nat)
    requires i < |logs|
    ensures LogValues(logs)[i] == LogValue(logs[i])
  {
    hide LogValue;
    if i > 0 {
      LogValuesAt(logs[1..], i - 1);
    }
  }

  lemma LogsMean(logs: seq<LogRecord>)
    ensures MeansLogs(JsonOf(Array(LogValues(logs))), logs)
  {
    hide LogValue, LogValues, ElementsJson, MeansLog;
    Elements(LogValues(logs));
    forall i | 0 <= i < |logs| ensures MeansLog(JsonOf(LogValues(logs)[i]), logs[i]) {
      LogValuesAt(logs, i);
      LogMeans(logs[i]);
    }
  }

  lemma SpanMeans(s: SpanData)
    ensures MeansSpan(JsonOf(SpanValue(s)), s)
  {
    hide EntriesJson, ElementsJson, ContextValue, ReferenceValues, TagEntries, LogValues, Micros, IntText,
      MeansContext, MeansReferences, MeansTime, MeansTags, MeansLogs;
    Members(SpanValue(s).entries);
    ContextMeans(s.context);
    ReferencesMean(s.references);
    TimeMeans(s.startTimestamp);
    TimeMeans(s.duration);
    TagsMean(s.tags);
    LogsMean(s.logs);
  }

  lemma {:induction false} SpanValuesAt(spans: seq<SpanData>, i: nat)
    requires i < |spans|
    ensures SpanValues(spans)[i] == SpanValue(spans[i])
  {
    hide SpanValue;
    if i > 0 {
      SpanValuesAt(spans[1..], i - 1);
    }
  }

  lemma SpansMean(spans: seq<SpanData>)
    ensures var js := ElementsJson(SpanValues(spans));
      |js| == |spans| && forall i :: 0 <= i < |spans| ==> MeansSpan(js[i], spans[i])
  {
    hide SpanValue, SpanValues, ElementsJson, MeansSpan, JsonOf;
    Elements(SpanValues(spans));
    forall i | 0 <= i < |spans| ensures MeansSpan(JsonOf(SpanValues(spans)[i]), spans[i]) {
      SpanValuesAt(spans, i);
      SpanMeans(spans[i]);
    }
  }

  /**
    What a reader of the document of any spans finds: an array of as many objects,
    each saying all of its span under the names it is looked for. The document is
    the compact text of that.
   */
  lemma DocumentMeans(spans: seq<SpanData>, hex: bool)
    requires WellFormedSpans(spans) && Safe(DocumentValue(spans), hex)
    ensures var j := ReadText(Document(spans, hex));
      j.Some? && j.value.JArray? && |j.value.items| == |spans| &&
      (forall i :: 0 <= i < |spans| ==> MeansSpan(j.value.items[i], spans[i])) &&
      Document(spans, hex) == Compact(j.value)
  {
    hide SpanValues, MeansSpan, ReadText, Compact, Text, ElementsJson, Safe;
    DocumentReadsBack(spans, hex);
    SpansMean(spans);
    TextIsCompact(DocumentValue(spans), hex, "");
    var text := Compact(JsonOf(DocumentValue(spans)));
    assert text + "" == text;
  }
}
