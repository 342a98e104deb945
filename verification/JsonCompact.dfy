/**
  The compact text of a JSON value: RFC 8259 without white space, with the short
  escapes where there are any and lower-case `\u` escapes for the other control
  characters. A safe value is printed as exactly that.
 */
module JsonCompact {
  import opened Wrappers
  import opened Seqs
  import opened SpanData
  import opened JsonText
  import opened JsonReader
  import opened JsonLaws

  const HEX_DIGITS := "0123456789abcdef"

  function EscapeOf(c: char): string {
    var n := c as int;
    if n == 34 then "\\\""
    else if n == 92 then "\\\\"
    else if n == 8 then "\\b"
    else if n == 9 then "\\t"
    else if n == 10 then "\\n"
    else if n == 13 then "\\r"
    else if n < 32 then "\\u00" + [HEX_DIGITS[n / 16], HEX_DIGITS[n % 16]]
    else [c]
  }

  function EscapesOf(s: string): string {
    if |s| == 0 then "" else EscapeOf(s[0]) + EscapesOf(s[1..])
  }

  function CompactString(s: string): string {
    "\"" + EscapesOf(s) + "\""
  }

  function Compact(j: Json): string {
    match j
    case JNull => "null"
    case JBool(b) => if b then "true" else "false"
    case JNumber(lexeme) => lexeme
    case JString(s) => CompactString(s)
    case JArray(items) => "[" + CompactItems(items) + "]"
    case JObject(members) => "{" + CompactMembers(members) + "}"
  }

  function CompactItems(items: seq<Json>): string {
    if |items| == 0 then ""
    else if |items| == 1 then Compact(items[0])
    else Compact(items[0]) + ("," + CompactItems(items[1..]))
  }

  function CompactMembers(members: seq<(string, Json)>): string {
    if |members| == 0 then ""
    else if |members| == 1 then CompactMember(members[0])
    else CompactMember(members[0]) + ("," + CompactMembers(members[1..]))
  }

  function CompactMember(m: (string, Json)): string {
    CompactString(m.0) + (":" + Compact(m.1))
  }

  // ---------- Strings ----------

  lemma DigitIs(d: int)
    requires 0 <= d < 16
    ensures DigitChar(d) == HEX_DIGITS[d]
  {
  }

  lemma EscapeIs(c: char)
    ensures EscapeChar(c) == EscapeOf(c)
  {
    if NeedsU(c) {
      var n := c as int;
      ControlDigits(n);
      DigitIs(n / 16);
      DigitIs(n % 16);
      assert "\\u" + ['0', '0', DigitChar(n / 16), DigitChar(n % 16)]
        == "\\u00" + [HEX_DIGITS[n / 16], HEX_DIGITS[n % 16]];
    }
  }

  lemma {:induction false} EscapedIs(s: string, rest: string)
    ensures Escaped(s, rest) == EscapesOf(s) + rest
  {
    hide EscapeChar, EscapeOf;
    if |s| == 0 {
      assert "" + rest == rest;
    } else {
      EscapeIs(s[0]);
      EscapedIs(s[1..], rest);
      Associate(EscapeOf(s[0]), EscapesOf(s[1..]), rest);
    }
  }

  lemma QuotedIs(s: string, rest: string)
    ensures Quoted(s, rest) == CompactString(s) + rest
  {
    hide Escaped, EscapesOf;
    EscapedIs(s, "\"" + rest);
    Associate("\"", EscapesOf(s), "\"" + rest);
    Associate("\"" + EscapesOf(s), "\"", rest);
  }

  // ---------- Values ----------

  lemma {:induction false} PlainEscapes(s: string)
    requires Plain(s)
    ensures EscapesOf(s) == s
  {
    if |s| > 0 {
      PlainEscapes(s[1..]);
      assert EscapeOf(s[0]) == [s[0]] && s == [s[0]] + s[1..];
    }
  }

  lemma DoubleIs(d: Double)
    ensures DoubleText(d) == Compact(JsonOf(Number(d)))
  {
    hide EscapesOf;
    match d {
      case NaN =>
        PlainEscapes("NaN");
        assert "\"" + "NaN" + "\"" == "\"NaN\"";
      case PosInf =>
        PlainEscapes("+Inf");
        assert "\"" + "+Inf" + "\"" == "\"+Inf\"";
      case NegInf =>
        PlainEscapes("-Inf");
        assert "\"" + "-Inf" + "\"" == "\"-Inf\"";
      case Finite(text) =>
    }
  }

  lemma {:induction false} TextIsCompact(v: Value, hex: bool, rest: string)
    requires Safe(v, hex)
    ensures Text(v, hex, rest) == Compact(JsonOf(v)) + rest
    decreases v, 1
  {
    match v {
      case Number(d) => DoubleIs(d);
      case Signed(i) => SafeIntText(i, hex);
      case Unsigned(u) => SafeIntText(u, hex);
      case String(s) => QuotedIs(s, rest);
      case Array(values) =>
        ElementsAreCompact(values, hex, "]" + rest);
        Around("[", CompactItems(ElementsJson(values)), "]", rest);
      case Dictionary(entries) =>
        EntriesAreCompact(entries, hex, "}" + rest);
        Around("{", CompactMembers(EntriesJson(entries)), "}", rest);
      case _ =>
    }
    hide CompactItems, CompactMembers, ElementsText, EntriesText, IntText, Quoted, CompactString, DoubleText;
  }

  lemma Around(a: string, b: string, c: string, rest: string)
    ensures a + (b + (c + rest)) == (a + b + c) + rest
  {
    Associate(a, b, c + rest);
    Associate(a + b, c, rest);
  }

  lemma {:induction false} ElementsAreCompact(values: seq<Value>, hex: bool, rest: string)
    requires ElementsSafe(values, hex)
    ensures ElementsText(values, hex, rest) == CompactItems(ElementsJson(values)) + rest
    decreases values
  {
    if |values| == 0 {
      assert "" + rest == rest;
    } else {
      var js := ElementsJson(values);
      assert js[0] == JsonOf(values[0]) && js[1..] == ElementsJson(values[1..]);
      if |values| == 1 {
        TextIsCompact(values[0], hex, rest);
      } else {
        var hex1 := hex || SetsHex(values[0]);
        ElementsAreCompact(values[1..], hex1, rest);
        TextIsCompact(values[0], hex, "," + ElementsText(values[1..], hex1, rest));
        Associate(",", CompactItems(js[1..]), rest);
        Associate(Compact(js[0]), "," + CompactItems(js[1..]), rest);
      }
    }
    hide Text, Compact, JsonOf, SetsHex, Safe;
  }

  lemma {:induction false} EntryIsCompact(entry: (string, Value), hex: bool, rest: string)
    requires EntrySafe(entry, hex)
    ensures EntryText(entry, hex, rest) == CompactMember(EntryJson(entry)) + rest
    decreases entry, 0
  {
    var hex1 := hex || UEscapes(entry.0);
    TextIsCompact(entry.1, hex1, rest);
    QuotedIs(entry.0, ":" + Text(entry.1, hex1, rest));
    Associate(":", Compact(JsonOf(entry.1)), rest);
    Associate(CompactString(entry.0), ":" + Compact(JsonOf(entry.1)), rest);
    hide Text, Compact, JsonOf, Quoted, CompactString, Safe, UEscapes;
  }

  lemma {:induction false} EntriesAreCompact(entries: seq<(string, Value)>, hex: bool, rest: string)
    requires EntriesSafe(entries, hex)
    ensures EntriesText(entries, hex, rest) == CompactMembers(EntriesJson(entries)) + rest
    decreases entries
  {
    if |entries| == 0 {
      assert "" + rest == rest;
    } else {
      var js := EntriesJson(entries);
      assert js[0] == EntryJson(entries[0]) && js[1..] == EntriesJson(entries[1..]);
      if |entries| == 1 {
        EntryIsCompact(entries[0], hex, rest);
      } else {
        var hex1 := hex || EntrySetsHex(entries[0]);
        EntriesAreCompact(entries[1..], hex1, rest);
        EntryIsCompact(entries[0], hex, "," + EntriesText(entries[1..], hex1, rest));
        Associate(",", CompactMembers(js[1..]), rest);
        Associate(CompactMember(js[0]), "," + CompactMembers(js[1..]), rest);
      }
    }
    hide EntryText, CompactMember, EntryJson, EntrySetsHex, EntrySafe;
  }
}
