/**
  The JSON printer of mocktracer/src/json.cpp for span records. The code writes
  the objects piece by piece; each method is proved to print one value tree.
 */
module SpanText {
  import opened Bytes
  import opened Seqs
  import opened StdMap
  import opened Streams
  import opened SpanData
  import opened JsonText

  // ---------- The tree of a record ----------

  /** Sixteen hexadecimal digits, made on a stream of its own. */
  function IdText(id: UInt64): string {
    Padded(Digits(id, 16), 16)
  }

  /** `duration_cast` to microseconds, which rounds towards zero. */
  function Micros(nanos: Int64): (micros: Int64)
    ensures var rest: int := nanos - 1000 * micros;
      -1000 < rest < 1000 && (rest < 0 ==> nanos < 0) && (rest > 0 ==> nanos > 0)
  {
    var n: int := nanos;
    if n >= 0 then n / 1000 else -(-n / 1000)
  }

  function StringEntries(items: seq<(ByteString, ByteString)>): (r: seq<(string, Value)>)
    ensures |r| == |items|
  {
    if |items| == 0 then [] else [(items[0].0, String(items[0].1))] + StringEntries(items[1..])
  }

  function ContextValue(c: SpanContextData): Value {
    Dictionary([("trace_id", String(IdText(c.traceId))),
                ("span_id", String(IdText(c.spanId))),
                ("baggage", Dictionary(StringEntries(Items<ByteString>(c.baggage))))])
  }

  function KindText(kind: ReferenceType): string {
    if kind.ChildOf? then "CHILD_OF" else "FOLLOWS_FROM"
  }

  function ReferenceValue(r: SpanReferenceData): Value {
    Dictionary([("reference_type", String(KindText(r.kind))),
                ("trace_id", String(IdText(r.traceId))),
                ("span_id", String(IdText(r.spanId)))])
  }

  function ReferenceValues(rs: seq<SpanReferenceData>): (vs: seq<Value>)
    ensures |vs| == |rs|
  {
    if |rs| == 0 then [] else [ReferenceValue(rs[0])] + ReferenceValues(rs[1..])
  }

  function FieldValue(field: (string, Value)): Value {
    Dictionary([("key", String(field.0)), ("value", field.1)])
  }

  function FieldValues(fields: seq<(string, Value)>): (vs: seq<Value>)
    ensures |vs| == |fields|
  {
    if |fields| == 0 then [] else [FieldValue(fields[0])] + FieldValues(fields[1..])
  }

  function LogValue(log: LogRecord): Value {
    Dictionary([("timestamp", Signed(Micros(log.timestamp))), ("fields", Array(FieldValues(log.fields)))])
  }

  function LogValues(logs: seq<LogRecord>): (vs: seq<Value>)
    ensures |vs| == |logs|
  {
    if |logs| == 0 then [] else [LogValue(logs[0])] + LogValues(logs[1..])
  }

  function TagEntries(tags: map<ByteString, Value>): seq<(string, Value)> {
    Items<Value>(tags)
  }

  function SpanValue(s: SpanData): Value {
    Dictionary([("span_context", ContextValue(s.context)),
                ("references", Array(ReferenceValues(s.references))),
                ("operation_name", String(s.operationName)),
                ("start_timestamp", Signed(Micros(s.startTimestamp))),
                ("duration", Signed(Micros(s.duration))),
                ("tags", Dictionary(TagEntries(s.tags))),
                ("logs", Array(LogValues(s.logs)))])
  }

  function SpanValues(spans: seq<SpanData>): (vs: seq<Value>)
    ensures |vs| == |spans|
  {
    if |spans| == 0 then [] else [SpanValue(spans[0])] + SpanValues(spans[1..])
  }

  function DocumentValue(spans: seq<SpanData>): Value {
    Array(SpanValues(spans))
  }

  // ---------- Texts of members ----------

  /** The member text that the code writes as one piece before a value. */
  function KeyText(key: string): string {
    "\"" + key + "\":"
  }

  lemma PlainEntry(key: string, v: Value, hex: bool, rest: string)
    requires Plain(key)
    ensures EntryText((key, v), hex, rest) == KeyText(key) + Text(v, hex, rest)
    ensures EntrySetsHex((key, v)) == SetsHex(v)
  {
    hide Quoted, Text, UEscapes, Plain;
    var value := Text(v, hex, rest);
    PlainQuoted(key, ":" + value);
    assert ("\"" + key + "\"") + (":" + value) == KeyText(key) + value;
  }

  lemma FirstEntry(e: (string, Value), es: seq<(string, Value)>, hex: bool, rest: string)
    ensures EntriesText([e] + es, hex, rest) ==
      EntryText(e, hex, if |es| == 0 then rest else "," + EntriesText(es, hex || EntrySetsHex(e), rest))
    ensures EntriesSetHex([e] + es) == (EntrySetsHex(e) || EntriesSetHex(es))
  {
    hide EntryText, EntrySetsHex;
    assert ([e] + es)[1..] == es;
  }

  lemma OneEntry(k: string, v: Value, hex: bool, rest: string)
    requires Plain(k)
    ensures EntriesText([(k, v)], hex, rest) == KeyText(k) + Text(v, hex, rest)
    ensures EntriesSetHex([(k, v)]) == SetsHex(v)
  {
    hide Text, EntryText, EntrySetsHex, Plain;
    PlainEntry(k, v, hex, rest);
    FirstEntry((k, v), [], hex, rest);
    assert [(k, v)] + [] == [(k, v)];
  }

  /** Peeling the first member off an object's text. */
  lemma MoreEntries(k: string, v: Value, es: seq<(string, Value)>, hex: bool, rest: string)
    requires Plain(k) && |es| > 0
    ensures EntriesText([(k, v)] + es, hex, rest) ==
      KeyText(k) + Text(v, hex, "," + EntriesText(es, hex || SetsHex(v), rest))
    ensures EntriesSetHex([(k, v)] + es) == (SetsHex(v) || EntriesSetHex(es))
  {
    hide Text, EntryText, EntrySetsHex, Plain, EntriesText;
    PlainEntry(k, v, hex, "," + EntriesText(es, hex || SetsHex(v), rest));
    FirstEntry((k, v), es, hex, rest);
  }

  lemma PlainId(id: UInt64)
    ensures Plain(IdText(id)) && |IdText(id)| == 16
  {
    PlainDigits(id);
    Pow16Of16();
    IdWidth(id, 16);
  }

  lemma {:induction false} PlainDigits(n: nat)
    ensures Plain(Digits(n, 16))
    decreases n
  {
    if n >= 16 {
      PlainDigits(n / 16);
    }
  }

  function Pow16(n: nat): nat {
    if n == 0 then 1 else 16 * Pow16(n - 1)
  }

  lemma Pow16Of16()
    ensures Pow16(16) == 0x1_0000_0000_0000_0000
  {
    assert Pow16(4) == 0x10000;
    assert Pow16(8) == 0x10000 * Pow16(4);
    assert Pow16(12) == 0x10000 * Pow16(8);
    assert Pow16(16) == 0x10000 * Pow16(12);
  }

  lemma {:induction false} IdWidth(n: nat, k: nat)
    requires k > 0 && n < Pow16(k)
    ensures |Digits(n, 16)| <= k
    decreases k
  {
    if n >= 16 {
      IdWidth(n / 16, k - 1);
    }
  }

  // ---------- Records as pieces ----------

  function IdQuoted(id: UInt64, rest: string): string {
    "\"" + (IdText(id) + ("\"" + rest))
  }

  lemma IdString(id: UInt64, hex: bool, rest: string)
    ensures Text(String(IdText(id)), hex, rest) == IdQuoted(id, rest)
    ensures !SetsHex(String(IdText(id)))
  {
    hide IdText;
    PlainId(id);
    PlainQuoted(IdText(id), rest);
    Associate("\"", IdText(id), "\"" + rest);
    Associate("\"" + IdText(id), "\"", rest);
  }

  function BaggageEntries(c: SpanContextData): seq<(string, Value)> {
    StringEntries(Items<ByteString>(c.baggage))
  }

  function ContextText(c: SpanContextData, hex: bool, rest: string): string {
    "{" + ("\"trace_id\":" + IdQuoted(c.traceId, "," + ("\"span_id\":" + IdQuoted(c.spanId, ","
      + ("\"baggage\":{" + EntriesText(BaggageEntries(c), hex, "}" + ("}" + rest)))))))
  }

  lemma DictionaryText(es: seq<(string, Value)>, hex: bool, rest: string)
    ensures Text(Dictionary(es), hex, rest) == "{" + EntriesText(es, hex, "}" + rest)
    ensures SetsHex(Dictionary(es)) == EntriesSetHex(es)
  {
  }

  lemma IdKeys()
    ensures Plain("trace_id") && KeyText("trace_id") == "\"trace_id\":"
    ensures Plain("span_id") && KeyText("span_id") == "\"span_id\":"
  {
  }

  lemma BaggageKey(rest: string)
    ensures Plain("baggage") && KeyText("baggage") + ("{" + rest) == "\"baggage\":{" + rest
  {
    assert "\"" + "baggage" + "\":" + "{" == "\"baggage\":{";
  }

  lemma ContextPieces(c: SpanContextData, hex: bool, rest: string)
    ensures Text(ContextValue(c), hex, rest) == ContextText(c, hex, rest)
    ensures SetsHex(ContextValue(c)) == EntriesSetHex(BaggageEntries(c))
  {
    hide Text, SetsHex, EntriesText, EntriesSetHex, IdText, IdQuoted, Items, StringEntries, Plain, KeyText;
    var t, s := String(IdText(c.traceId)), String(IdText(c.spanId));
    var b := Dictionary(BaggageEntries(c));
    var es1 := [("baggage", b)];
    var es2 := [("span_id", s)] + es1;
    var es3 := [("trace_id", t)] + es2;
    assert ContextValue(c) == Dictionary(es3);
    var end := "}" + rest;
    IdKeys();
    BaggageKey(EntriesText(BaggageEntries(c), hex, "}" + end));
    IdString(c.traceId, hex, "," + EntriesText(es2, hex, end));
    IdString(c.spanId, hex, "," + EntriesText(es1, hex, end));
    DictionaryText(BaggageEntries(c), hex, end);
    OneEntry("baggage", b, hex, end);
    MoreEntries("span_id", s, es1, hex, end);
    MoreEntries("trace_id", t, es2, hex, end);
    DictionaryText(es3, hex, rest);
  }

  function ReferenceText(r: SpanReferenceData, rest: string): string {
    "{" + ("\"reference_type\":" + ("\"" + KindText(r.kind) + "\"" + ("," + ("\"trace_id\":" + IdQuoted(r.traceId, ","
      + ("\"span_id\":" + IdQuoted(r.spanId, "}" + rest)))))))
  }

  lemma KindString(kind: ReferenceType, hex: bool, rest: string)
    ensures Plain("reference_type") && KeyText("reference_type") == "\"reference_type\":"
    ensures Text(String(KindText(kind)), hex, rest) == "\"" + KindText(kind) + "\"" + rest
    ensures !SetsHex(String(KindText(kind)))
  {
    hide Quoted, UEscapes;
    PlainQuoted(KindText(kind), rest);
  }

  lemma ReferencePieces(r: SpanReferenceData, hex: bool, rest: string)
    ensures Text(ReferenceValue(r), hex, rest) == ReferenceText(r, rest)
    ensures !SetsHex(ReferenceValue(r))
  {
    hide Text, SetsHex, EntriesText, EntriesSetHex, IdText, IdQuoted, KindText, Plain, KeyText;
    var k, t, s := String(KindText(r.kind)), String(IdText(r.traceId)), String(IdText(r.spanId));
    var es1 := [("span_id", s)];
    var es2 := [("trace_id", t)] + es1;
    var es3 := [("reference_type", k)] + es2;
    assert ReferenceValue(r) == Dictionary(es3);
    var end := "}" + rest;
    IdKeys();
    KindString(r.kind, hex, "," + EntriesText(es2, hex, end));
    IdString(r.traceId, hex, "," + EntriesText(es1, hex, end));
    IdString(r.spanId, hex, end);
    OneEntry("span_id", s, hex, end);
    MoreEntries("trace_id", t, es1, hex, end);
    MoreEntries("reference_type", k, es2, hex, end);
    DictionaryText(es3, hex, rest);
  }

  function FieldText(field: (string, Value), hex: bool, rest: string): string {
    "{" + ("\"key\":" + Quoted(field.0, ","
      + ("\"value\":" + Text(field.1, hex || UEscapes(field.0), "}" + rest))))
  }

  lemma FieldKeys()
    ensures Plain("key") && KeyText("key") == "\"key\":"
    ensures Plain("value") && KeyText("value") == "\"value\":"
  {
  }

  lemma StringText(s: string, hex: bool, rest: string)
    ensures Text(String(s), hex, rest) == Quoted(s, rest)
    ensures SetsHex(String(s)) == UEscapes(s)
  {
  }

  lemma FieldPieces(field: (string, Value), hex: bool, rest: string)
    ensures Text(FieldValue(field), hex, rest) == FieldText(field, hex, rest)
    ensures SetsHex(FieldValue(field)) == EntrySetsHex(field)
  {
    hide Text, SetsHex, EntriesText, EntriesSetHex, Quoted, UEscapes, Plain, KeyText;
    var es1 := [("value", field.1)];
    var es2 := [("key", String(field.0))] + es1;
    assert FieldValue(field) == Dictionary(es2);
    var end := "}" + rest;
    FieldKeys();
    StringText(field.0, hex, "," + EntriesText(es1, hex || UEscapes(field.0), end));
    OneEntry("value", field.1, hex || UEscapes(field.0), end);
    MoreEntries("key", String(field.0), es1, hex, end);
    DictionaryText(es2, hex, rest);
  }

  function LogText(log: LogRecord, hex: bool, rest: string): string {
    "{" + ("\"timestamp\":" + (IntText(Micros(log.timestamp), hex) + ("," + ("\"fields\":" + ("["
      + ElementsText(FieldValues(log.fields), hex, "]" + ("}" + rest)))))))
  }

  lemma LogKeys()
    ensures Plain("timestamp") && KeyText("timestamp") == "\"timestamp\":"
    ensures Plain("fields") && KeyText("fields") == "\"fields\":"
  {
  }

  lemma SignedText(i: Int64, hex: bool, rest: string)
    ensures Text(Signed(i), hex, rest) == IntText(i, hex) + rest
    ensures !SetsHex(Signed(i))
  {
  }

  lemma ArrayText(values: seq<Value>, hex: bool, rest: string)
    ensures Text(Array(values), hex, rest) == "[" + ElementsText(values, hex, "]" + rest)
    ensures SetsHex(Array(values)) == ElementsSetHex(values)
  {
  }

  lemma LogPieces(log: LogRecord, hex: bool, rest: string)
    ensures Text(LogValue(log), hex, rest) == LogText(log, hex, rest)
    ensures SetsHex(LogValue(log)) == ElementsSetHex(FieldValues(log.fields))
  {
    hide Text, SetsHex, EntriesText, EntriesSetHex, ElementsText, ElementsSetHex, IntText, Plain, KeyText, FieldValues,
      Micros;
    var i, fields := Micros(log.timestamp), FieldValues(log.fields);
    var es1 := [("fields", Array(fields))];
    var es2 := [("timestamp", Signed(i))] + es1;
    assert LogValue(log) == Dictionary(es2);
    var end := "}" + rest;
    LogKeys();
    ArrayText(fields, hex, end);
    OneEntry("fields", Array(fields), hex, end);
    SignedText(i, hex, "," + EntriesText(es1, hex, end));
    MoreEntries("timestamp", Signed(i), es1, hex, end);
    DictionaryText(es2, hex, rest);
  }

  // The members of a span, from the last to the first, each with the base that the ones before it leave.

  function LogsMember(s: SpanData, hex: bool, rest: string): string {
    "\"logs\":" + ("[" + ElementsText(LogValues(s.logs), hex, "]" + ("}" + rest)))
  }

  function TagsMember(s: SpanData, hex: bool, rest: string): string {
    "\"tags\":" + ("{" + EntriesText(TagEntries(s.tags), hex, "}" + (","
      + LogsMember(s, hex || EntriesSetHex(TagEntries(s.tags)), rest))))
  }

  function TimesMembers(s: SpanData, hex: bool, rest: string): string {
    "\"start_timestamp\":" + (IntText(Micros(s.startTimestamp), hex) + ("," + ("\"duration\":"
      + (IntText(Micros(s.duration), hex) + ("," + TagsMember(s, hex, rest))))))
  }

  function NameMember(s: SpanData, hex: bool, rest: string): string {
    "\"operation_name\":" + Quoted(s.operationName, "," + TimesMembers(s, hex || UEscapes(s.operationName), rest))
  }

  function ReferencesMember(s: SpanData, hex: bool, rest: string): string {
    "\"references\":" + ("[" + ElementsText(ReferenceValues(s.references), hex, "]" + ("," + NameMember(s, hex, rest))))
  }

  function SpanText(s: SpanData, hex: bool, rest: string): string {
    "{" + ("\"span_context\":" + ContextText(s.context, hex, ","
      + ReferencesMember(s, hex || EntriesSetHex(BaggageEntries(s.context)), rest)))
  }

  predicate SpanSetsHex(s: SpanData) {
    EntriesSetHex(BaggageEntries(s.context)) || UEscapes(s.operationName) ||
    EntriesSetHex(TagEntries(s.tags)) || ElementsSetHex(LogValues(s.logs))
  }

  lemma SpanKeys()
    ensures Plain("logs") && KeyText("logs") == "\"logs\":"
    ensures Plain("tags") && KeyText("tags") == "\"tags\":"
    ensures Plain("duration") && KeyText("duration") == "\"duration\":"
    ensures Plain("start_timestamp") && KeyText("start_timestamp") == "\"start_timestamp\":"
  {
  }

  lemma NameKey()
    ensures Plain("operation_name") && KeyText("operation_name") == "\"operation_name\":"
  {
  }

  lemma OuterKeys()
    ensures Plain("references") && KeyText("references") == "\"references\":"
    ensures Plain("span_context") && KeyText("span_context") == "\"span_context\":"
  {
  }

  lemma {:induction false} ReferencesKeepBase(rs: seq<SpanReferenceData>)
    ensures !ElementsSetHex(ReferenceValues(rs))
  {
    if |rs| > 0 {
      ReferencePieces(rs[0], false, "");
      hide ReferenceValue;
      ReferencesKeepBase(rs[1..]);
    }
  }

  function LogsEntries(s: SpanData): seq<(string, Value)> {
    [("logs", Array(LogValues(s.logs)))]
  }

  function TagsEntries(s: SpanData): seq<(string, Value)> {
    [("tags", Dictionary(TagEntries(s.tags)))] + LogsEntries(s)
  }

  function TimesEntries(s: SpanData): seq<(string, Value)> {
    [("start_timestamp", Signed(Micros(s.startTimestamp)))] + DurationEntries(s)
  }

  function DurationEntries(s: SpanData): seq<(string, Value)> {
    [("duration", Signed(Micros(s.duration)))] + TagsEntries(s)
  }

  function NameEntries(s: SpanData): seq<(string, Value)> {
    [("operation_name", String(s.operationName))] + TimesEntries(s)
  }

  lemma TagsPieces(s: SpanData, hex: bool, rest: string)
    ensures EntriesText(TagsEntries(s), hex, "}" + rest) == TagsMember(s, hex, rest)
    ensures EntriesSetHex(TagsEntries(s)) == (EntriesSetHex(TagEntries(s.tags)) || ElementsSetHex(LogValues(s.logs)))
  {
    hide Text, SetsHex, EntriesText, EntriesSetHex, ElementsText, ElementsSetHex, Plain, KeyText, LogValues, TagEntries;
    var tags, logs := TagEntries(s.tags), LogValues(s.logs);
    var hex1 := hex || EntriesSetHex(tags);
    var end := "}" + rest;
    SpanKeys();
    ArrayText(logs, hex1, end);
    OneEntry("logs", Array(logs), hex1, end);
    DictionaryText(tags, hex, "," + EntriesText(LogsEntries(s), hex1, end));
    MoreEntries("tags", Dictionary(tags), LogsEntries(s), hex, end);
  }

  lemma TimesPieces(s: SpanData, hex: bool, rest: string)
    ensures EntriesText(TimesEntries(s), hex, "}" + rest) == TimesMembers(s, hex, rest)
    ensures EntriesSetHex(TimesEntries(s)) == EntriesSetHex(TagsEntries(s))
  {
    hide Text, SetsHex, EntriesText, EntriesSetHex, Plain, KeyText, TagsEntries, TagsMember, IntText, Micros;
    var start, duration := Micros(s.startTimestamp), Micros(s.duration);
    var end := "}" + rest;
    SpanKeys();
    TagsPieces(s, hex, rest);
    SomeTagsEntries(s);
    SignedText(duration, hex, "," + EntriesText(TagsEntries(s), hex, end));
    MoreEntries("duration", Signed(duration), TagsEntries(s), hex, end);
    SignedText(start, hex, "," + EntriesText(DurationEntries(s), hex, end));
    MoreEntries("start_timestamp", Signed(start), DurationEntries(s), hex, end);
  }

  lemma SomeTagsEntries(s: SpanData)
    ensures |TagsEntries(s)| == 2
  {
  }

  lemma NamePieces(s: SpanData, hex: bool, rest: string)
    ensures EntriesText(NameEntries(s), hex, "}" + rest) == NameMember(s, hex, rest)
    ensures EntriesSetHex(NameEntries(s)) == (UEscapes(s.operationName) || EntriesSetHex(TimesEntries(s)))
    ensures |NameEntries(s)| > 0
  {
    SomeTagsEntries(s);
    hide Text, SetsHex, EntriesText, EntriesSetHex, Plain, KeyText, TimesMembers, UEscapes, Quoted, TagsEntries;
    var hex1 := hex || UEscapes(s.operationName);
    var end := "}" + rest;
    NameKey();
    TimesPieces(s, hex1, rest);
    StringText(s.operationName, hex, "," + EntriesText(TimesEntries(s), hex1, end));
    MoreEntries("operation_name", String(s.operationName), TimesEntries(s), hex, end);
  }

  lemma SpanPieces(s: SpanData, hex: bool, rest: string)
    ensures Text(SpanValue(s), hex, rest) == SpanText(s, hex, rest)
    ensures SetsHex(SpanValue(s)) == SpanSetsHex(s)
  {
    var c, rs := ContextValue(s.context), Array(ReferenceValues(s.references));
    var es1 := [("references", rs)] + NameEntries(s);
    var es2 := [("span_context", c)] + es1;
    assert SpanValue(s) == Dictionary(es2);
    SpanPiecesOf(s, hex, rest, c, rs, es1);
    hide *;
  }

  lemma SpanPiecesOf(s: SpanData, hex: bool, rest: string, c: Value, rs: Value, es1: seq<(string, Value)>)
    requires c == ContextValue(s.context) && rs == Array(ReferenceValues(s.references))
    requires es1 == [("references", rs)] + NameEntries(s)
    ensures Text(Dictionary([("span_context", c)] + es1), hex, rest) == SpanText(s, hex, rest)
    ensures SetsHex(Dictionary([("span_context", c)] + es1)) == SpanSetsHex(s)
  {
    hide Text, SetsHex, EntriesText, EntriesSetHex, ElementsText, ElementsSetHex, Plain, KeyText, NameEntries,
      NameMember, ContextValue, ContextText, ReferenceValues, BaggageEntries, UEscapes, TimesEntries, TagsEntries,
      LogValues, TagEntries;
    var hex1 := hex || SetsHex(c);
    var end := "}" + rest;
    OuterKeys();
    NamePieces(s, hex1, rest);
    TimesPieces(s, hex1, rest);
    TagsPieces(s, hex1, rest);
    ReferencesKeepBase(s.references);
    ArrayText(ReferenceValues(s.references), hex1, "," + EntriesText(NameEntries(s), hex1, end));
    MoreEntries("references", rs, NameEntries(s), hex1, end);
    ContextPieces(s.context, hex, "," + EntriesText(es1, hex1, end));
    MoreEntries("span_context", c, es1, hex, end);
    DictionaryText([("span_context", c)] + es1, hex, rest);
  }

  // ---------- The printer ----------

  method WriteId(writer: OStream, id: UInt64, ghost rest: string)
    requires writer.Valid()
    modifies writer`text, writer`good
    ensures writer.Valid()
    ensures Put(writer.State(), rest) == Put(old(writer.State()), IdQuoted(id, rest))
  {
    var oss := Padded(Digits(id, 16), 16);
    Emit(writer, "\"", oss + ("\"" + rest));
    Emit(writer, oss, "\"" + rest);
    Emit(writer, "\"", rest);
  }

  method WriteBaggage(writer: OStream, c: SpanContextData, ghost rest: string)
    requires writer.Valid()
    modifies writer
    ensures writer.Valid()
    ensures Put(writer.State(), rest) == Put(old(writer.State()), EntriesText(BaggageEntries(c), old(writer.hex), rest))
    ensures writer.hex == (old(writer.hex) || EntriesSetHex(BaggageEntries(c)))
  {
    hide Quoted, UEscapes, Put, Items;
    var items := Items<ByteString>(c.baggage);
    var i := 0;
    ghost var left := items;
    while i < |items|
      invariant i <= |items| && left == items[i..] && writer.Valid()
      invariant Put(writer.State(), EntriesText(StringEntries(left), writer.hex, rest))
        == Put(old(writer.State()), EntriesText(BaggageEntries(c), old(writer.hex), rest))
      invariant (writer.hex || EntriesSetHex(StringEntries(left)))
        == (old(writer.hex) || EntriesSetHex(BaggageEntries(c)))
    {
      ghost var e, others := (left[0].0, String(left[0].1)), StringEntries(left[1..]);
      ghost var more := EntriesText(others, writer.hex || EntrySetsHex(e), rest);
      ghost var after := if |left| == 1 then rest else "," + more;
      FirstEntry(e, others, writer.hex, rest);
      WriteEscapedString(writer, items[i].0, ":" + Quoted(e.1.s, after));
      Emit(writer, ":", Quoted(e.1.s, after));
      WriteEscapedString(writer, items[i].1, after);
      i := i + 1;
      if i < |items| {
        Emit(writer, ",", more);
      }
      left := left[1..];
    }
  }

  method WriteContext(writer: OStream, c: SpanContextData, ghost rest: string)
    requires writer.Valid()
    modifies writer
    ensures writer.Valid()
    ensures Put(writer.State(), rest) == Put(old(writer.State()), ContextText(c, old(writer.hex), rest))
    ensures writer.hex == (old(writer.hex) || EntriesSetHex(BaggageEntries(c)))
  {
    hide BaggageEntries, EntriesText, EntriesSetHex, IdQuoted;
    ghost var baggage := EntriesText(BaggageEntries(c), writer.hex, "}" + ("}" + rest));
    ghost var spanId := IdQuoted(c.spanId, "," + ("\"baggage\":{" + baggage));
    ghost var traceId := IdQuoted(c.traceId, "," + ("\"span_id\":" + spanId));
    Emit(writer, "{", "\"trace_id\":" + traceId);
    Emit(writer, "\"trace_id\":", traceId);
    WriteId(writer, c.traceId, "," + ("\"span_id\":" + spanId));
    Emit(writer, ",", "\"span_id\":" + spanId);
    Emit(writer, "\"span_id\":", spanId);
    WriteId(writer, c.spanId, "," + ("\"baggage\":{" + baggage));
    Emit(writer, ",", "\"baggage\":{" + baggage);
    Emit(writer, "\"baggage\":{", baggage);
    WriteBaggage(writer, c, "}" + ("}" + rest));
    Emit(writer, "}", "}" + rest);
    Emit(writer, "}", rest);
  }

  method WriteReference(writer: OStream, r: SpanReferenceData, ghost rest: string)
    requires writer.Valid()
    modifies writer`text, writer`good
    ensures writer.Valid()
    ensures Put(writer.State(), rest) == Put(old(writer.State()), ReferenceText(r, rest))
  {
    hide IdQuoted, KindText;
    ghost var spanId := IdQuoted(r.spanId, "}" + rest);
    ghost var traceId := IdQuoted(r.traceId, "," + ("\"span_id\":" + spanId));
    ghost var ids := "," + ("\"trace_id\":" + traceId);
    Emit(writer, "{", "\"reference_type\":" + ("\"" + KindText(r.kind) + "\"" + ids));
    Emit(writer, "\"reference_type\":", "\"" + KindText(r.kind) + "\"" + ids);
    WriteKind(writer, r.kind, ids);
    Emit(writer, ",", "\"trace_id\":" + traceId);
    Emit(writer, "\"trace_id\":", traceId);
    WriteId(writer, r.traceId, "," + ("\"span_id\":" + spanId));
    Emit(writer, ",", "\"span_id\":" + spanId);
    Emit(writer, "\"span_id\":", spanId);
    WriteId(writer, r.spanId, "}" + rest);
    Emit(writer, "}", rest);
  }

  method WriteKind(writer: OStream, kind: ReferenceType, ghost rest: string)
    requires writer.Valid()
    modifies writer`text, writer`good
    ensures writer.Valid()
    ensures Put(writer.State(), rest) == Put(old(writer.State()), "\"" + KindText(kind) + "\"" + rest)
  {
    hide Put;
    if kind.ChildOf? {
      assert "\"" + "CHILD_OF" + "\"" == "\"CHILD_OF\"";
      Emit(writer, "\"CHILD_OF\"", rest);
    } else {
      assert "\"" + "FOLLOWS_FROM" + "\"" == "\"FOLLOWS_FROM\"";
      Emit(writer, "\"FOLLOWS_FROM\"", rest);
    }
  }

  method WriteReferences(writer: OStream, rs: seq<SpanReferenceData>, ghost rest: string)
    requires writer.Valid()
    modifies writer`text, writer`good
    ensures writer.Valid()
    ensures Put(writer.State(), rest) == Put(old(writer.State()), ElementsText(ReferenceValues(rs), writer.hex, rest))
  {
    var i := 0;
    ghost var left := rs;
    while i < |rs|
      invariant i <= |rs| && left == rs[i..] && writer.Valid()
      invariant Put(writer.State(), ElementsText(ReferenceValues(left), writer.hex, rest))
        == Put(old(writer.State()), ElementsText(ReferenceValues(rs), writer.hex, rest))
    {
      ghost var more := ElementsText(ReferenceValues(left[1..]), writer.hex, rest);
      ghost var after := if |left| == 1 then rest else "," + more;
      FirstReference(left, writer.hex, rest);
      WriteReference(writer, rs[i], after);
      i := i + 1;
      if i < |rs| {
        Emit(writer, ",", more);
      }
      left := left[1..];
    }
  }

  lemma FirstElement(v: Value, vs: seq<Value>, hex: bool, rest: string)
    ensures ElementsText([v] + vs, hex, rest) ==
      Text(v, hex, if |vs| == 0 then rest else "," + ElementsText(vs, hex || SetsHex(v), rest))
    ensures ElementsSetHex([v] + vs) == (SetsHex(v) || ElementsSetHex(vs))
  {
    hide Text, SetsHex;
    assert ([v] + vs)[1..] == vs;
  }

  lemma FirstReference(rs: seq<SpanReferenceData>, hex: bool, rest: string)
    requires |rs| > 0
    ensures ElementsText(ReferenceValues(rs), hex, rest) ==
      ReferenceText(rs[0], if |rs| == 1 then rest else "," + ElementsText(ReferenceValues(rs[1..]), hex, rest))
  {
    hide Text, SetsHex, ElementsText, ElementsSetHex, ReferenceValue, ReferenceText;
    var more := ElementsText(ReferenceValues(rs[1..]), hex, rest);
    ReferencePieces(rs[0], hex, if |rs| == 1 then rest else "," + more);
    FirstElement(ReferenceValue(rs[0]), ReferenceValues(rs[1..]), hex, rest);
  }

  method WriteField(writer: OStream, field: (string, Value), ghost rest: string)
    requires writer.Valid()
    modifies writer
    ensures writer.Valid()
    ensures Put(writer.State(), rest) == Put(old(writer.State()), FieldText(field, old(writer.hex), rest))
    ensures writer.hex == (old(writer.hex) || EntrySetsHex(field))
  {
    hide Quoted, Text, UEscapes, SetsHex;
    ghost var value := Text(field.1, writer.hex || UEscapes(field.0), "}" + rest);
    ghost var key := Quoted(field.0, "," + ("\"value\":" + value));
    Emit(writer, "{", "\"key\":" + key);
    Emit(writer, "\"key\":", key);
    WriteEscapedString(writer, field.0, "," + ("\"value\":" + value));
    Emit(writer, ",", "\"value\":" + value);
    Emit(writer, "\"value\":", value);
    WriteValue(writer, field.1, "}" + rest);
    Emit(writer, "}", rest);
  }

  lemma FirstField(fields: seq<(string, Value)>, hex: bool, rest: string)
    requires |fields| > 0
    ensures ElementsText(FieldValues(fields), hex, rest) ==
      FieldText(fields[0], hex, if |fields| == 1 then rest
        else "," + ElementsText(FieldValues(fields[1..]), hex || EntrySetsHex(fields[0]), rest))
    ensures ElementsSetHex(FieldValues(fields)) == (EntrySetsHex(fields[0]) || ElementsSetHex(FieldValues(fields[1..])))
  {
    hide Text, SetsHex, ElementsText, ElementsSetHex, FieldValue, FieldText, EntrySetsHex;
    var more := ElementsText(FieldValues(fields[1..]), hex || EntrySetsHex(fields[0]), rest);
    FieldPieces(fields[0], hex, if |fields| == 1 then rest else "," + more);
    FirstElement(FieldValue(fields[0]), FieldValues(fields[1..]), hex, rest);
  }

  method WriteFields(writer: OStream, fields: seq<(string, Value)>, ghost rest: string)
    requires writer.Valid()
    modifies writer
    ensures writer.Valid()
    ensures Put(writer.State(), rest)
      == Put(old(writer.State()), ElementsText(FieldValues(fields), old(writer.hex), rest))
    ensures writer.hex == (old(writer.hex) || ElementsSetHex(FieldValues(fields)))
  {
    var i := 0;
    ghost var left := fields;
    while i < |fields|
      invariant i <= |fields| && left == fields[i..] && writer.Valid()
      invariant Put(writer.State(), ElementsText(FieldValues(left), writer.hex, rest))
        == Put(old(writer.State()), ElementsText(FieldValues(fields), old(writer.hex), rest))
      invariant (writer.hex || ElementsSetHex(FieldValues(left)))
        == (old(writer.hex) || ElementsSetHex(FieldValues(fields)))
    {
      ghost var more := ElementsText(FieldValues(left[1..]), writer.hex || EntrySetsHex(left[0]), rest);
      ghost var after := if |left| == 1 then rest else "," + more;
      FirstField(left, writer.hex, rest);
      WriteField(writer, fields[i], after);
      i := i + 1;
      if i < |fields| {
        Emit(writer, ",", more);
      }
      left := left[1..];
    }
  }

  method WriteLog(writer: OStream, log: LogRecord, ghost rest: string)
    requires writer.Valid()
    modifies writer
    ensures writer.Valid()
    ensures Put(writer.State(), rest) == Put(old(writer.State()), LogText(log, old(writer.hex), rest))
    ensures writer.hex == (old(writer.hex) || ElementsSetHex(FieldValues(log.fields)))
  {
    hide IntText, ElementsText, ElementsSetHex, FieldValues, Micros;
    ghost var fields := ElementsText(FieldValues(log.fields), writer.hex, "]" + ("}" + rest));
    ghost var time := IntText(Micros(log.timestamp), writer.hex) + ("," + ("\"fields\":" + ("[" + fields)));
    Emit(writer, "{", "\"timestamp\":" + time);
    Emit(writer, "\"timestamp\":", time);
    WriteInt(writer, Micros(log.timestamp), "," + ("\"fields\":" + ("[" + fields)));
    Emit(writer, ",", "\"fields\":" + ("[" + fields));
    Emit(writer, "\"fields\":", "[" + fields);
    Emit(writer, "[", fields);
    WriteFields(writer, log.fields, "]" + ("}" + rest));
    Emit(writer, "]", "}" + rest);
    Emit(writer, "}", rest);
  }

  lemma FirstLog(logs: seq<LogRecord>, hex: bool, rest: string)
    requires |logs| > 0
    ensures ElementsText(LogValues(logs), hex, rest) ==
      LogText(logs[0], hex, if |logs| == 1 then rest
        else "," + ElementsText(LogValues(logs[1..]), hex || ElementsSetHex(FieldValues(logs[0].fields)), rest))
    ensures ElementsSetHex(LogValues(logs)) ==
      (ElementsSetHex(FieldValues(logs[0].fields)) || ElementsSetHex(LogValues(logs[1..])))
  {
    hide Text, SetsHex, ElementsText, ElementsSetHex, LogValue, LogText, FieldValues;
    var hex1 := hex || ElementsSetHex(FieldValues(logs[0].fields));
    var more := ElementsText(LogValues(logs[1..]), hex1, rest);
    LogPieces(logs[0], hex, if |logs| == 1 then rest else "," + more);
    FirstElement(LogValue(logs[0]), LogValues(logs[1..]), hex, rest);
  }

  method WriteLogs(writer: OStream, logs: seq<LogRecord>, ghost rest: string)
    requires writer.Valid()
    modifies writer
    ensures writer.Valid()
    ensures Put(writer.State(), rest) == Put(old(writer.State()), ElementsText(LogValues(logs), old(writer.hex), rest))
    ensures writer.hex == (old(writer.hex) || ElementsSetHex(LogValues(logs)))
  {
    var i := 0;
    ghost var left := logs;
    while i < |logs|
      invariant i <= |logs| && left == logs[i..] && writer.Valid()
      invariant Put(writer.State(), ElementsText(LogValues(left), writer.hex, rest))
        == Put(old(writer.State()), ElementsText(LogValues(logs), old(writer.hex), rest))
      invariant (writer.hex || ElementsSetHex(LogValues(left)))
        == (old(writer.hex) || ElementsSetHex(LogValues(logs)))
    {
      ghost var hex1 := writer.hex || ElementsSetHex(FieldValues(left[0].fields));
      ghost var more := ElementsText(LogValues(left[1..]), hex1, rest);
      ghost var after := if |left| == 1 then rest else "," + more;
      FirstLog(left, writer.hex, rest);
      WriteLog(writer, logs[i], after);
      i := i + 1;
      if i < |logs| {
        Emit(writer, ",", more);
      }
      left := left[1..];
    }
  }

  method WriteTags(writer: OStream, tags: map<ByteString, Value>, ghost rest: string)
    requires writer.Valid()
    modifies writer
    ensures writer.Valid()
    ensures Put(writer.State(), rest) == Put(old(writer.State()), EntriesText(TagEntries(tags), old(writer.hex), rest))
    ensures writer.hex == (old(writer.hex) || EntriesSetHex(TagEntries(tags)))
  {
    var items := TagEntries(tags);
    var i := 0;
    ghost var left := items;
    while i < |items|
      invariant i <= |items| && left == items[i..] && writer.Valid()
      invariant Put(writer.State(), EntriesText(left, writer.hex, rest))
        == Put(old(writer.State()), EntriesText(items, old(writer.hex), rest))
      invariant (writer.hex || EntriesSetHex(left)) == (old(writer.hex) || EntriesSetHex(items))
    {
      ghost var more := EntriesText(left[1..], writer.hex || EntrySetsHex(left[0]), rest);
      ghost var after := if |left| == 1 then rest else "," + more;
      ghost var value := Text(left[0].1, writer.hex || UEscapes(left[0].0), after);
      WriteEscapedString(writer, items[i].0, ":" + value);
      Emit(writer, ":", value);
      WriteValue(writer, items[i].1, after);
      i := i + 1;
      if i < |items| {
        Emit(writer, ",", more);
      }
      left := left[1..];
    }
  }

  method WriteSpan(writer: OStream, s: SpanData, ghost rest: string)
    requires writer.Valid()
    modifies writer
    ensures writer.Valid()
    ensures Put(writer.State(), rest) == Put(old(writer.State()), SpanText(s, old(writer.hex), rest))
    ensures writer.hex == (old(writer.hex) || SpanSetsHex(s))
  {
    hide IntText, Micros, ElementsText, ElementsSetHex, EntriesText, EntriesSetHex, Quoted, UEscapes, ContextText,
      ReferenceValues, LogValues, TagEntries, BaggageEntries;
    ghost var hex1 := writer.hex || EntriesSetHex(BaggageEntries(s.context));
    ghost var references := ReferencesMember(s, hex1, rest);
    Emit(writer, "{", "\"span_context\":" + ContextText(s.context, writer.hex, "," + references));
    Emit(writer, "\"span_context\":", ContextText(s.context, writer.hex, "," + references));
    WriteContext(writer, s.context, "," + references);
    Emit(writer, ",", references);
    WriteReferencesAndName(writer, s, rest);
    WriteTimes(writer, s, rest);
    WriteTagsAndLogs(writer, s, rest);
  }

  /** The middle of a span's text: references and operation name. */
  method WriteReferencesAndName(writer: OStream, s: SpanData, ghost rest: string)
    requires writer.Valid()
    modifies writer
    ensures writer.Valid()
    ensures writer.hex == (old(writer.hex) || UEscapes(s.operationName))
    ensures Put(writer.State(), TimesMembers(s, writer.hex, rest))
      == Put(old(writer.State()), ReferencesMember(s, old(writer.hex), rest))
  {
    hide ElementsText, Quoted, UEscapes, ReferenceValues, TimesMembers;
    ghost var name := NameMember(s, writer.hex, rest);
    ghost var elements := ElementsText(ReferenceValues(s.references), writer.hex, "]" + ("," + name));
    ghost var times := TimesMembers(s, writer.hex || UEscapes(s.operationName), rest);
    Emit(writer, "\"references\":", "[" + elements);
    Emit(writer, "[", elements);
    WriteReferences(writer, s.references, "]" + ("," + name));
    Emit(writer, "]", "," + name);
    Emit(writer, ",", name);
    Emit(writer, "\"operation_name\":", Quoted(s.operationName, "," + times));
    WriteEscapedString(writer, s.operationName, "," + times);
    Emit(writer, ",", times);
  }

  /** The times of a span's text. */
  method WriteTimes(writer: OStream, s: SpanData, ghost rest: string)
    requires writer.Valid()
    modifies writer`text, writer`good
    ensures writer.Valid()
    ensures Put(writer.State(), TagsMember(s, writer.hex, rest))
      == Put(old(writer.State()), TimesMembers(s, writer.hex, rest))
  {
    hide IntText, Micros, TagsMember;
    ghost var tags := TagsMember(s, writer.hex, rest);
    ghost var duration := IntText(Micros(s.duration), writer.hex) + ("," + tags);
    ghost var start := IntText(Micros(s.startTimestamp), writer.hex) + ("," + ("\"duration\":" + duration));
    Emit(writer, "\"start_timestamp\":", start);
    WriteInt(writer, Micros(s.startTimestamp), "," + ("\"duration\":" + duration));
    Emit(writer, ",", "\"duration\":" + duration);
    Emit(writer, "\"duration\":", duration);
    WriteInt(writer, Micros(s.duration), "," + tags);
    Emit(writer, ",", tags);
  }

  /** The end of a span's text: tags and logs. */
  method WriteTagsAndLogs(writer: OStream, s: SpanData, ghost rest: string)
    requires writer.Valid()
    modifies writer
    ensures writer.Valid()
    ensures Put(writer.State(), rest) == Put(old(writer.State()), TagsMember(s, old(writer.hex), rest))
    ensures writer.hex ==
      (old(writer.hex) || EntriesSetHex(TagEntries(s.tags)) || ElementsSetHex(LogValues(s.logs)))
  {
    hide ElementsText, ElementsSetHex, EntriesText, EntriesSetHex, LogValues, TagEntries;
    ghost var hex1 := writer.hex || EntriesSetHex(TagEntries(s.tags));
    ghost var logs := LogsMember(s, hex1, rest);
    ghost var entries := EntriesText(TagEntries(s.tags), writer.hex, "}" + ("," + logs));
    ghost var elements := ElementsText(LogValues(s.logs), hex1, "]" + ("}" + rest));
    Emit(writer, "\"tags\":", "{" + entries);
    Emit(writer, "{", entries);
    WriteTags(writer, s.tags, "}" + ("," + logs));
    Emit(writer, "}", "," + logs);
    Emit(writer, ",", logs);
    Emit(writer, "\"logs\":", "[" + elements);
    Emit(writer, "[", elements);
    WriteLogs(writer, s.logs, "]" + ("}" + rest));
    Emit(writer, "]", "}" + rest);
    Emit(writer, "}", rest);
  }

  lemma FirstSpan(spans: seq<SpanData>, hex: bool, rest: string)
    requires |spans| > 0
    ensures ElementsText(SpanValues(spans), hex, rest) ==
      SpanText(spans[0], hex, if |spans| == 1 then rest
        else "," + ElementsText(SpanValues(spans[1..]), hex || SpanSetsHex(spans[0]), rest))
    ensures ElementsSetHex(SpanValues(spans)) == (SpanSetsHex(spans[0]) || ElementsSetHex(SpanValues(spans[1..])))
  {
    hide Text, SetsHex, ElementsText, ElementsSetHex, SpanValue, SpanText, SpanSetsHex;
    var more := ElementsText(SpanValues(spans[1..]), hex || SpanSetsHex(spans[0]), rest);
    SpanPieces(spans[0], hex, if |spans| == 1 then rest else "," + more);
    FirstElement(SpanValue(spans[0]), SpanValues(spans[1..]), hex, rest);
  }

  /** The whole document: it prints the array of the spans' trees, and the base is as the trees leave it. */
  method ToJson(writer: OStream, spans: seq<SpanData>)
    requires writer.Valid()
    modifies writer
    ensures writer.Valid()
    ensures writer.State() == Put(old(writer.State()), Text(DocumentValue(spans), old(writer.hex), ""))
    ensures writer.hex == (old(writer.hex) || SetsHex(DocumentValue(spans)))
  {
    hide SpanText, SpanSetsHex, SpanValue;
    ArrayText(SpanValues(spans), writer.hex, "");
    assert "]" + "" == "]";
    Emit(writer, "[", ElementsText(SpanValues(spans), writer.hex, "]"));
    var i := 0;
    ghost var left := spans;
    while i < |spans|
      invariant i <= |spans| && left == spans[i..] && writer.Valid()
      invariant Put(writer.State(), ElementsText(SpanValues(left), writer.hex, "]"))
        == Put(old(writer.State()), Text(DocumentValue(spans), old(writer.hex), ""))
      invariant (writer.hex || ElementsSetHex(SpanValues(left))) == (old(writer.hex) || SetsHex(DocumentValue(spans)))
    {
      ghost var more := ElementsText(SpanValues(left[1..]), writer.hex || SpanSetsHex(left[0]), "]");
      ghost var after := if |left| == 1 then "]" else "," + more;
      FirstSpan(left, writer.hex, "]");
      WriteSpan(writer, spans[i], after);
      i := i + 1;
      if i < |spans| {
        Emit(writer, ",", more);
      }
      left := left[1..];
    }
    Emit(writer, "]", "");
    PutNothing(writer.State());
  }
}
