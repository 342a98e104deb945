/** What a printed list of spans means to a reader of JSON. */
module SpanTextLaws {
  import opened Bytes
  import opened StdMap
  import opened Wrappers
  import opened SpanData
  import opened JsonText
  import opened JsonReader
  import opened JsonLaws
  import opened SpanText

  // ---------- The document is one valid text ----------

  /** The texts given for finite doubles in tags and log fields are numbers. */
  predicate WellFormedSpans(spans: seq<SpanData>) {
    WellFormed(DocumentValue(spans))
  }

  function Document(spans: seq<SpanData>, hex: bool): string {
    Text(DocumentValue(spans), hex, "")
  }

  /**
    The whole document is read back as the array of the spans' records if and
    only if no integer outside 0..9 is printed after a `\u` escape.
   */
  lemma DocumentReadsBack(spans: seq<SpanData>, hex: bool)
    requires WellFormedSpans(spans)
    ensures ReadText(Document(spans, hex)) == Some(JsonOf(DocumentValue(spans)))
      <==> Safe(DocumentValue(spans), hex)
  {
    var v := DocumentValue(spans);
    TextStarts(v, hex, "");
    if Safe(v, hex) {
      ReadsBack(v, hex, "");
    } else {
      Misread(v, hex, "");
    }
    hide DocumentValue, ReadValue, Text, JsonOf, Safe;
  }

  /** Without characters that need a `\u` escape, every document on a fresh stream is read back. */
  lemma PlainDocument(spans: seq<SpanData>)
    requires WellFormedSpans(spans) && !SetsHex(DocumentValue(spans))
    ensures ReadText(Document(spans, false)) == Some(JsonOf(DocumentValue(spans)))
  {
    DecimalStaysSafe(DocumentValue(spans));
    DocumentReadsBack(spans, false);
  }

  /** A number after a control character is printed in the wrong base: 16 is read as 10. */
  lemma StickyHex()
    ensures var v := Array([String([1 as char]), Unsigned(16)]);
      JsonOf(v) == JArray([JString([1 as char]), JNumber("16")]) &&
      ReadText(Text(v, false, "")) == Some(JArray([JString([1 as char]), JNumber("10")]))
  {
    var s, ten := String([1 as char]), Number(Finite("10"));
    var v, w := Array([s, Unsigned(16)]), Array([s, ten]);
    assert UEscapes([1 as char]);
    assert Digits(16, 16) == "10" && Digits(16, 10) == "16";
    assert WellFormed(ten) by {
      assert DropDigits("0") == "" && DropDigits("10") == "" by { assert "10"[1..] == "0" && "0"[1..] == ""; }
    }
    SameTail(s, Unsigned(16), ten);
    Pair(s, Unsigned(16));
    Pair(s, ten);
    ReadsBack(w, false, "");
    TextStarts(w, false, "");
    hide ReadValue, JsonOf, WellFormed, Safe;
  }

  lemma Pair(a: Value, b: Value)
    ensures ElementsJson([a, b]) == [JsonOf(a), JsonOf(b)]
    ensures WellFormed(a) && WellFormed(b) ==> WellFormed(Array([a, b]))
    ensures Safe(a, false) && Safe(b, SetsHex(a)) ==> Safe(Array([a, b]), false)
  {
    hide JsonOf, SetsHex;
    assert [a, b][1..] == [b] && [b][1..] == [];
    assert ElementsJson([b]) == [JsonOf(b)];
    assert ElementsWellFormed([b]) == WellFormed(b);
    assert ElementsSafe([b], SetsHex(a)) == Safe(b, SetsHex(a));
  }

  lemma SameTail(s: Value, a: Value, b: Value)
    requires forall rest :: Text(a, SetsHex(s), rest) == Text(b, SetsHex(s), rest)
    ensures Text(Array([s, a]), false, "") == Text(Array([s, b]), false, "")
  {
    assert [s, a][1..] == [a] && [s, b][1..] == [b];
    var t := Text(a, SetsHex(s), "]" + "");
    assert ElementsText([a], SetsHex(s), "]" + "") == t && ElementsText([b], SetsHex(s), "]" + "") == t;
    assert ElementsText([s, a], false, "]" + "") == Text(s, false, "," + t);
    assert ElementsText([s, b], false, "]" + "") == Text(s, false, "," + t);
  }

  // ---------- The document determines the spans ----------

  predicate SameFields(a: seq<(string, Value)>, b: seq<(string, Value)>) {
    EntriesJson(a) == EntriesJson(b)
  }

  predicate SameLog(a: LogRecord, b: LogRecord) {
    Micros(a.timestamp) == Micros(b.timestamp) && SameFields(a.fields, b.fields)
  }

  predicate SameTags(a: map<ByteString, Value>, b: map<ByteString, Value>) {
    a.Keys == b.Keys && forall k :: k in a ==> JsonOf(a[k]) == JsonOf(b[k])
  }

  /** Equal in everything but the nanoseconds of times and the C++ type of values with the same JSON. */
  predicate SameSpan(a: SpanData, b: SpanData) {
    a.context == b.context && a.references == b.references && a.operationName == b.operationName &&
    Micros(a.startTimestamp) == Micros(b.startTimestamp) && Micros(a.duration) == Micros(b.duration) &&
    SameTags(a.tags, b.tags) &&
    |a.logs| == |b.logs| && forall i :: 0 <= i < |a.logs| ==> SameLog(a.logs[i], b.logs[i])
  }

  lemma {:induction false} DecimalInjective(m: nat, n: nat)
    requires Digits(m, 10) == Digits(n, 10)
    ensures m == n
    decreases m
  {
    var s, t := Digits(m, 10), Digits(n, 10);
    if m < 10 || n < 10 {
      assert s[|s| - 1] == DigitChar(m % 10) && t[|t| - 1] == DigitChar(n % 10);
      SameDigit(m % 10, n % 10);
    } else {
      assert s[..|s| - 1] == Digits(m / 10, 10) && t[..|t| - 1] == Digits(n / 10, 10);
      assert s[|s| - 1] == DigitChar(m % 10) && t[|t| - 1] == DigitChar(n % 10);
      SameDigit(m % 10, n % 10);
      DecimalInjective(m / 10, n / 10);
    }
  }

  /** Leading zeros do not change the value of a digit string. */
  function ValueOf(s: string): nat {
    if |s| == 0 then 0
    else
      var d := HexValue(s[|s| - 1]);
      16 * ValueOf(s[..|s| - 1]) + if d < 0 then 0 else d
  }

  lemma {:induction false} ValueOfDigits(n: nat)
    ensures ValueOf(Digits(n, 16)) == n
    decreases n
  {
    if n >= 16 {
      ValueOfDigits(n / 16);
      HexValueOfDigit(n % 16);
      var s := Digits(n, 16);
      assert s[..|s| - 1] == Digits(n / 16, 16);
    } else {
      HexValueOfDigit(n);
      assert Digits(n, 16)[..0] == "";
    }
  }

  lemma {:induction false} ValueOfPadded(s: string, k: nat)
    ensures ValueOf(seq(k, _ => '0') + s) == ValueOf(s)
    decreases |s|, k
  {
    var z := seq(k, _ => '0');
    if |s| > 0 {
      ValueOfPadded(s[..|s| - 1], k);
      assert (z + s)[..|z + s| - 1] == z + s[..|s| - 1];
    } else if k > 0 {
      ValueOfPadded(s, k - 1);
      assert (z + s)[..k - 1] == seq(k - 1, _ => '0') + s;
    } else {
      assert z + s == s;
    }
  }

  /** The sixteen digits of an identifier are its value in base 16. */
  lemma IdTextValue(id: UInt64)
    ensures ValueOf(IdText(id)) == id
  {
    var s := Digits(id, 16);
    ValueOfDigits(id);
    if |s| < 16 {
      ValueOfPadded(s, 16 - |s|);
    }
  }

  lemma IntTextInjective(a: int, b: int)
    requires -0x8000_0000_0000_0000 <= a < 0x1_0000_0000_0000_0000
    requires -0x8000_0000_0000_0000 <= b < 0x1_0000_0000_0000_0000
    requires IntText(a, false) == IntText(b, false)
    ensures a == b
  {
    var m, n := if a < 0 then -a else a, if b < 0 then -b else b;
    DecimalDigits(m);
    DecimalDigits(n);
    assert (a < 0) == (b < 0);
    if a < 0 {
      assert IntText(a, false)[1..] == Digits(m, 10) && IntText(b, false)[1..] == Digits(n, 10);
    }
    DecimalInjective(m, n);
  }

  lemma {:induction false} StringEntriesInjective(a: seq<(ByteString, ByteString)>, b: seq<(ByteString, ByteString)>)
    requires EntriesJson(StringEntries(a)) == EntriesJson(StringEntries(b))
    ensures a == b
    decreases |a|
  {
    if |a| > 0 && |b| > 0 {
      var x, y := StringEntries(a), StringEntries(b);
      assert x[1..] == StringEntries(a[1..]) && y[1..] == StringEntries(b[1..]);
      assert EntryJson(x[0]) == EntriesJson(x)[0] && EntryJson(y[0]) == EntriesJson(y)[0];
      assert EntriesJson(x)[1..] == EntriesJson(x[1..]) && EntriesJson(y)[1..] == EntriesJson(y[1..]);
      StringEntriesInjective(a[1..], b[1..]);
      assert JsonOf(String(a[0].1)) == JsonOf(String(b[0].1));
      assert a == [a[0]] + a[1..] && b == [b[0]] + b[1..];
    }
  }

  lemma {:induction false} EntriesJsonAt(es: seq<(string, Value)>, i: nat)
    requires i < |es|
    ensures EntriesJson(es)[i] == EntryJson(es[i])
  {
    if i > 0 {
      EntriesJsonAt(es[1..], i - 1);
    }
  }

  lemma {:induction false} ElementsJsonAt(vs: seq<Value>, i: nat)
    requires i < |vs|
    ensures ElementsJson(vs)[i] == JsonOf(vs[i])
  {
    if i > 0 {
      ElementsJsonAt(vs[1..], i - 1);
    }
  }

  lemma SameEntries(x: seq<(string, Value)>, y: seq<(string, Value)>, i: nat)
    requires EntriesJson(x) == EntriesJson(y) && i < |x|
    ensures |x| == |y| && EntryJson(x[i]) == EntryJson(y[i])
  {
    EntriesJsonAt(x, i);
    EntriesJsonAt(y, i);
  }

  lemma SameIds(t: UInt64, u: UInt64)
    requires IdText(t) == IdText(u)
    ensures t == u
  {
    IdTextValue(t);
    IdTextValue(u);
  }

  lemma ContextDetermined(a: SpanContextData, b: SpanContextData)
    requires JsonOf(ContextValue(a)) == JsonOf(ContextValue(b))
    ensures a == b
  {
    hide EntriesJson, Items, StringEntries, IdText;
    var x, y := ContextValue(a).entries, ContextValue(b).entries;
    SameEntries(x, y, 0);
    SameEntries(x, y, 1);
    SameEntries(x, y, 2);
    SameIds(a.traceId, b.traceId);
    SameIds(a.spanId, b.spanId);
    StringEntriesInjective(Items<ByteString>(a.baggage), Items<ByteString>(b.baggage));
    ItemsDetermineMap<ByteString>(a.baggage);
    ItemsDetermineMap<ByteString>(b.baggage);
  }

  lemma ReferenceDetermined(a: SpanReferenceData, b: SpanReferenceData)
    requires JsonOf(ReferenceValue(a)) == JsonOf(ReferenceValue(b))
    ensures a == b
  {
    hide EntriesJson, IdText, KindText;
    var x, y := ReferenceValue(a).entries, ReferenceValue(b).entries;
    SameEntries(x, y, 0);
    SameEntries(x, y, 1);
    SameEntries(x, y, 2);
    SameIds(a.traceId, b.traceId);
    SameIds(a.spanId, b.spanId);
    SameKinds(a.kind, b.kind);
  }

  lemma SameKinds(a: ReferenceType, b: ReferenceType)
    requires KindText(a) == KindText(b)
    ensures a == b
  {
    assert "CHILD_OF"[0] != "FOLLOWS_FROM"[0];
  }

  lemma {:induction false} ReferencesDetermined(a: seq<SpanReferenceData>, b: seq<SpanReferenceData>)
    requires ElementsJson(ReferenceValues(a)) == ElementsJson(ReferenceValues(b))
    ensures a == b
    decreases |a|
  {
    hide ReferenceValue, JsonOf;
    if |a| > 0 && |b| > 0 {
      var x, y := ReferenceValues(a), ReferenceValues(b);
      assert x[1..] == ReferenceValues(a[1..]) && y[1..] == ReferenceValues(b[1..]);
      assert ElementsJson(x)[1..] == ElementsJson(x[1..]) && ElementsJson(y)[1..] == ElementsJson(y[1..]);
      assert ElementsJson(x)[0] == JsonOf(x[0]) && ElementsJson(y)[0] == JsonOf(y[0]);
      ReferenceDetermined(a[0], b[0]);
      ReferencesDetermined(a[1..], b[1..]);
      assert a == [a[0]] + a[1..] && b == [b[0]] + b[1..];
    }
  }

  lemma {:induction false} TagsDetermined(a: map<ByteString, Value>, b: map<ByteString, Value>)
    requires EntriesJson(TagEntries(a)) == EntriesJson(TagEntries(b))
    ensures SameTags(a, b)
    decreases |a|
  {
    if a != map[] && b != map[] {
      var x, y := TagEntries(a), TagEntries(b);
      ItemsStep(a);
      ItemsStep(b);
      var j, k := FirstKey(a.Keys), FirstKey(b.Keys);
      assert EntriesJson(x)[1..] == EntriesJson(x[1..]) && EntriesJson(y)[1..] == EntriesJson(y[1..]);
      assert EntryJson(x[0]) == EntriesJson(x)[0] && EntryJson(y[0]) == EntriesJson(y)[0];
      TagsDetermined(a - {j}, b - {k});
      assert a.Keys == (a - {j}).Keys + {j} && b.Keys == (b - {k}).Keys + {k};
    }
  }

  lemma {:induction false} FieldsDetermined(a: seq<(string, Value)>, b: seq<(string, Value)>)
    requires ElementsJson(FieldValues(a)) == ElementsJson(FieldValues(b))
    ensures SameFields(a, b)
    decreases |a|
  {
    if |a| > 0 && |b| > 0 {
      var x, y := FieldValues(a), FieldValues(b);
      assert x[1..] == FieldValues(a[1..]) && y[1..] == FieldValues(b[1..]);
      assert ElementsJson(x)[1..] == ElementsJson(x[1..]) && ElementsJson(y)[1..] == ElementsJson(y[1..]);
      assert ElementsJson(x)[0] == JsonOf(x[0]) && ElementsJson(y)[0] == JsonOf(y[0]);
      FieldDetermined(a[0], b[0]);
      FieldsDetermined(a[1..], b[1..]);
    }
  }

  lemma FieldDetermined(a: (string, Value), b: (string, Value))
    requires JsonOf(FieldValue(a)) == JsonOf(FieldValue(b))
    ensures EntryJson(a) == EntryJson(b)
  {
    hide EntriesJson;
    var x, y := FieldValue(a).entries, FieldValue(b).entries;
    SameEntries(x, y, 0);
    SameEntries(x, y, 1);
  }

  lemma LogDetermined(a: LogRecord, b: LogRecord)
    requires JsonOf(LogValue(a)) == JsonOf(LogValue(b))
    ensures SameLog(a, b)
  {
    var x, y := LogValue(a).entries, LogValue(b).entries;
    SameEntries(x, y, 0);
    SameEntries(x, y, 1);
    hide EntriesJson, ElementsJson, FieldValues, Micros, IntText;
    IntTextInjective(Micros(a.timestamp), Micros(b.timestamp));
    FieldsDetermined(a.fields, b.fields);
  }

  lemma {:induction false} LogsDetermined(a: seq<LogRecord>, b: seq<LogRecord>)
    requires ElementsJson(LogValues(a)) == ElementsJson(LogValues(b))
    ensures |a| == |b| && forall i :: 0 <= i < |a| ==> SameLog(a[i], b[i])
    decreases |a|
  {
    hide LogValue, JsonOf, SameLog;
    if |a| > 0 && |b| > 0 {
      var x, y := LogValues(a), LogValues(b);
      assert x[1..] == LogValues(a[1..]) && y[1..] == LogValues(b[1..]);
      assert ElementsJson(x)[1..] == ElementsJson(x[1..]) && ElementsJson(y)[1..] == ElementsJson(y[1..]);
      assert ElementsJson(x)[0] == JsonOf(x[0]) && ElementsJson(y)[0] == JsonOf(y[0]);
      LogDetermined(a[0], b[0]);
      LogsDetermined(a[1..], b[1..]);
      forall i | 0 <= i < |a| ensures SameLog(a[i], b[i]) {
        if i > 0 {
          assert a[i] == a[1..][i - 1] && b[i] == b[1..][i - 1];
        }
      }
    }
  }

  lemma SpanDetermined(a: SpanData, b: SpanData)
    requires JsonOf(SpanValue(a)) == JsonOf(SpanValue(b))
    ensures SameSpan(a, b)
  {
    var x, y := SpanValue(a).entries, SpanValue(b).entries;
    forall i: nat | i < 7 ensures EntryJson(x[i]) == EntryJson(y[i]) {
      SameEntries(x, y, i);
    }
    SpanMembersDetermined(a, b, x, y);
    hide *;
  }

  lemma SpanMembersDetermined(a: SpanData, b: SpanData, x: seq<(string, Value)>, y: seq<(string, Value)>)
    requires x == SpanValue(a).entries && y == SpanValue(b).entries
    requires forall i: nat :: i < 7 ==> EntryJson(x[i]) == EntryJson(y[i])
    ensures SameSpan(a, b)
  {
    assert EntryJson(x[0]) == EntryJson(y[0]) && EntryJson(x[1]) == EntryJson(y[1])
      && EntryJson(x[2]) == EntryJson(y[2]) && EntryJson(x[3]) == EntryJson(y[3])
      && EntryJson(x[4]) == EntryJson(y[4]) && EntryJson(x[5]) == EntryJson(y[5])
      && EntryJson(x[6]) == EntryJson(y[6]);
    hide EntriesJson, ElementsJson, ContextValue, ReferenceValues, TagEntries, LogValues, Micros, IntText, SameTags,
      SameLog;
    ContextDetermined(a.context, b.context);
    ReferencesDetermined(a.references, b.references);
    IntTextInjective(Micros(a.startTimestamp), Micros(b.startTimestamp));
    IntTextInjective(Micros(a.duration), Micros(b.duration));
    TagsDetermined(a.tags, b.tags);
    LogsDetermined(a.logs, b.logs);
  }

  lemma {:induction false} SpansDetermined(a: seq<SpanData>, b: seq<SpanData>)
    requires ElementsJson(SpanValues(a)) == ElementsJson(SpanValues(b))
    ensures |a| == |b| && forall i :: 0 <= i < |a| ==> SameSpan(a[i], b[i])
    decreases |a|
  {
    hide SpanValue, JsonOf, SameSpan;
    if |a| > 0 && |b| > 0 {
      var x, y := SpanValues(a), SpanValues(b);
      assert x[1..] == SpanValues(a[1..]) && y[1..] == SpanValues(b[1..]);
      assert ElementsJson(x)[1..] == ElementsJson(x[1..]) && ElementsJson(y)[1..] == ElementsJson(y[1..]);
      assert ElementsJson(x)[0] == JsonOf(x[0]) && ElementsJson(y)[0] == JsonOf(y[0]);
      SpanDetermined(a[0], b[0]);
      SpansDetermined(a[1..], b[1..]);
      forall i | 0 <= i < |a| ensures SameSpan(a[i], b[i]) {
        if i > 0 {
          assert a[i] == a[1..][i - 1] && b[i] == b[1..][i - 1];
        }
      }
    }
  }

  /** Two lists of spans with the same document agree in everything the document is for. */
  lemma DocumentDetermines(a: seq<SpanData>, b: seq<SpanData>, hex: bool)
    requires WellFormedSpans(a) && WellFormedSpans(b)
    requires Safe(DocumentValue(a), hex) && Safe(DocumentValue(b), hex)
    requires Document(a, hex) == Document(b, hex)
    ensures |a| == |b| && forall i :: 0 <= i < |a| ==> SameSpan(a[i], b[i])
  {
    hide SpanValues, SameSpan, ReadValue, ElementsJson;
    DocumentReadsBack(a, hex);
    DocumentReadsBack(b, hex);
    SpansDetermined(a, b);
  }
}
