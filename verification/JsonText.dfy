/**
  The JSON printer of mocktracer/src/json.cpp for strings, numbers and values.

  Texts are given with what follows them: `Text(v, hex, rest)` is `v` as the
  printer writes it, then `rest`. The stream's number base is part of the state:
  a `\u` escape inserts `std::hex` and nothing resets it, so `hex` says whether
  one has been written before.
 */
module JsonText {
  import opened Seqs
  import opened Streams
  import opened SpanData

  // ---------- Numbers ----------

  function DigitChar(d: int): (c: char)
    requires 0 <= d < 16
  {
    if d < 10 then (48 + d) as char else (87 + d) as char
  }

  /** `n` in base `b`, without leading zeros. */
  function Digits(n: nat, b: int): (s: string)
    requires 2 <= b <= 16
    ensures |s| > 0
  {
    if n < b then [DigitChar(n)] else Digits(n / b, b) + [DigitChar(n % b)]
  }

  function Padded(s: string, width: nat): (r: string)
    ensures |r| == if |s| < width then width else |s|
  {
    if |s| < width then seq(width - |s|, _ => '0') + s else s
  }

  /** `operator<<` of a 64-bit integer; hexadecimal shows the two's complement of a negative one. */
  function IntText(i: int, hex: bool): (s: string)
    requires -0x8000_0000_0000_0000 <= i < 0x1_0000_0000_0000_0000
    ensures |s| > 0
  {
    if hex then Digits(if i < 0 then i + 0x1_0000_0000_0000_0000 else i, 16)
    else if i < 0 then "-" + Digits(-i, 10)
    else Digits(i, 10)
  }

  // ---------- Strings ----------

  /** The control characters that have no short escape in the printer. */
  predicate NeedsU(c: char) {
    c as int <= 0x1f && c as int != 8 && c != '\n' && c != '\r' && c != '\t'
  }

  function EscapeChar(c: char): string {
    if c == '"' then "\\\""
    else if c == '\\' then "\\\\"
    else if c as int == 8 then "\\b"
    else if c == '\n' then "\\n"
    else if c == '\r' then "\\r"
    else if c == '\t' then "\\t"
    else if c as int <= 0x1f then "\\u" + Padded(Digits(c as int, 16), 4)
    else [c]
  }

  function Escaped(s: string, rest: string): string {
    if |s| == 0 then rest else EscapeChar(s[0]) + Escaped(s[1..], rest)
  }

  function Quoted(s: string, rest: string): string {
    "\"" + Escaped(s, "\"" + rest)
  }

  predicate UEscapes(s: string) {
    |s| > 0 && (NeedsU(s[0]) || UEscapes(s[1..]))
  }

  /** No character needs escaping. */
  predicate Plain(s: string) {
    forall i :: 0 <= i < |s| ==> s[i] as int > 0x1f && s[i] != '"' && s[i] != '\\'
  }

  lemma {:induction false} PlainEscaped(s: string, rest: string)
    requires Plain(s)
    ensures Escaped(s, rest) == s + rest && !UEscapes(s)
  {
    if |s| == 0 {
      assert s + rest == rest;
    } else {
      PlainEscaped(s[1..], rest);
      assert [s[0]] + (s[1..] + rest) == s + rest;
    }
  }

  /** A plain string is printed between quotation marks as it is. */
  lemma PlainQuoted(s: string, rest: string)
    requires Plain(s)
    ensures Quoted(s, rest) == ("\"" + s + "\"") + rest
    ensures !UEscapes(s)
  {
    hide Escaped, UEscapes, Plain;
    PlainEscaped(s, "\"" + rest);
    Associate("\"", s, "\"" + rest);
    Associate("\"" + s, "\"", rest);
  }

  // ---------- Values ----------

  /** Printing the value writes a `\u` escape. */
  predicate SetsHex(v: Value) {
    match v
    case String(s) => UEscapes(s)
    case Array(values) => ElementsSetHex(values)
    case Dictionary(entries) => EntriesSetHex(entries)
    case _ => false
  }

  predicate ElementsSetHex(values: seq<Value>) {
    |values| > 0 && (SetsHex(values[0]) || ElementsSetHex(values[1..]))
  }

  predicate EntriesSetHex(entries: seq<(string, Value)>) {
    |entries| > 0 && (EntrySetsHex(entries[0]) || EntriesSetHex(entries[1..]))
  }

  predicate EntrySetsHex(entry: (string, Value)) {
    UEscapes(entry.0) || SetsHex(entry.1)
  }

  function Text(v: Value, hex: bool, rest: string): string {
    match v
    case Bool(b) => (if b then "true" else "false") + rest
    case Number(d) => DoubleText(d) + rest
    case Signed(i) => IntText(i, hex) + rest
    case Unsigned(u) => IntText(u, hex) + rest
    case String(s) => Quoted(s, rest)
    case Null => "null" + rest
    case Array(values) => "[" + ElementsText(values, hex, "]" + rest)
    case Dictionary(entries) => "{" + EntriesText(entries, hex, "}" + rest)
  }

  function DoubleText(d: Double): string {
    match d
    case NaN => "\"NaN\""
    case NegInf => "\"-Inf\""
    case PosInf => "\"+Inf\""
    case Finite(text) => text
  }

  function ElementsText(values: seq<Value>, hex: bool, rest: string): string {
    if |values| == 0 then rest
    else if |values| == 1 then Text(values[0], hex, rest)
    else Text(values[0], hex, "," + ElementsText(values[1..], hex || SetsHex(values[0]), rest))
  }

  function EntriesText(entries: seq<(string, Value)>, hex: bool, rest: string): string {
    if |entries| == 0 then rest
    else if |entries| == 1 then EntryText(entries[0], hex, rest)
    else EntryText(entries[0], hex, "," + EntriesText(entries[1..], hex || EntrySetsHex(entries[0]), rest))
  }

  function EntryText(entry: (string, Value), hex: bool, rest: string): string {
    Quoted(entry.0, ":" + Text(entry.1, hex || UEscapes(entry.0), rest))
  }

  // ---------- The printer ----------

  /** Writes `s`; the ghost argument is what its caller has still to write. */
  method Emit(writer: OStream, s: string, ghost rest: string)
    requires writer.Valid()
    modifies writer`text, writer`good
    ensures writer.Valid()
    ensures Put(writer.State(), rest) == Put(old(writer.State()), s + rest)
  {
    writer.Write(s);
    PutPut(old(writer.State()), s, rest);
  }

  /** One turn of the escaping loop. */
  method WriteEscapedChar(writer: OStream, c: char, ghost rest: string)
    requires writer.Valid()
    modifies writer
    ensures writer.Valid()
    ensures Put(writer.State(), rest) == Put(old(writer.State()), EscapeChar(c) + rest)
    ensures writer.hex == (old(writer.hex) || NeedsU(c))
  {
    if c == '"' {
      Emit(writer, "\\\"", rest);
    } else if c == '\\' {
      Emit(writer, "\\\\", rest);
    } else if c as int == 8 {
      Emit(writer, "\\b", rest);
    } else if c == '\n' {
      Emit(writer, "\\n", rest);
    } else if c == '\r' {
      Emit(writer, "\\r", rest);
    } else if c == '\t' {
      Emit(writer, "\\t", rest);
    } else if c as int <= 0x1f {
      ghost var padded := Padded(Digits(c as int, 16), 4);
      assert EscapeChar(c) + rest == "\\u" + (padded + rest);
      Emit(writer, "\\u", padded + rest);
      writer.SetHex();
      Emit(writer, Padded(IntText(c as int, writer.hex), 4), rest);
    } else {
      Emit(writer, [c], rest);
    }
  }

  method WriteEscapedString(writer: OStream, s: string, ghost rest: string)
    requires writer.Valid()
    modifies writer
    ensures writer.Valid()
    ensures Put(writer.State(), rest) == Put(old(writer.State()), Quoted(s, rest))
    ensures writer.hex == (old(writer.hex) || UEscapes(s))
  {
    Emit(writer, "\"", Escaped(s, "\"" + rest));
    var i := 0;
    ghost var left := s;
    while i < |s|
      invariant i <= |s| && left == s[i..] && writer.Valid()
      invariant Put(writer.State(), Escaped(left, "\"" + rest)) == Put(old(writer.State()), Quoted(s, rest))
      invariant (writer.hex || UEscapes(left)) == (old(writer.hex) || UEscapes(s))
    {
      WriteEscapedChar(writer, s[i], Escaped(left[1..], "\"" + rest));
      i := i + 1;
      left := left[1..];
    }
    Emit(writer, "\"", rest);
  }

  method WriteInt(writer: OStream, i: int, ghost rest: string)
    requires writer.Valid() && -0x8000_0000_0000_0000 <= i < 0x1_0000_0000_0000_0000
    modifies writer`text, writer`good
    ensures writer.Valid()
    ensures Put(writer.State(), rest) == Put(old(writer.State()), IntText(i, writer.hex) + rest)
  {
    Emit(writer, IntText(i, writer.hex), rest);
  }

  /** The visitor over values. */
  method WriteValue(writer: OStream, v: Value, ghost rest: string)
    requires writer.Valid()
    modifies writer
    ensures writer.Valid()
    ensures Put(writer.State(), rest) == Put(old(writer.State()), Text(v, old(writer.hex), rest))
    ensures writer.hex == (old(writer.hex) || SetsHex(v))
    decreases v
  {
    match v {
      case Bool(b) =>
        if b {
          Emit(writer, "true", rest);
        } else {
          Emit(writer, "false", rest);
        }
      case Number(d) =>
        if d.NaN? {
          Emit(writer, "\"NaN\"", rest);
        } else if d.NegInf? {
          Emit(writer, "\"-Inf\"", rest);
        } else if d.PosInf? {
          Emit(writer, "\"+Inf\"", rest);
        } else {
          Emit(writer, d.text, rest);
        }
      case Signed(i) => WriteInt(writer, i, rest);
      case Unsigned(u) => WriteInt(writer, u, rest);
      case String(s) => WriteEscapedString(writer, s, rest);
      case Null => Emit(writer, "null", rest);
      case Array(values) => WriteArray(writer, v, rest);
      case Dictionary(entries) => WriteDictionary(writer, v, rest);
    }
  }

  method WriteArray(writer: OStream, v: Value, ghost rest: string)
    requires writer.Valid() && v.Array?
    modifies writer
    ensures writer.Valid()
    ensures Put(writer.State(), rest) == Put(old(writer.State()), Text(v, old(writer.hex), rest))
    ensures writer.hex == (old(writer.hex) || SetsHex(v))
    decreases v, 0
  {
    var values := v.values;
    Emit(writer, "[", ElementsText(values, writer.hex, "]" + rest));
    var i := 0;
    ghost var left := values;
    while i < |values|
      invariant i <= |values| && left == values[i..] && writer.Valid()
      invariant Put(writer.State(), ElementsText(left, writer.hex, "]" + rest))
        == Put(old(writer.State()), Text(v, old(writer.hex), rest))
      invariant (writer.hex || ElementsSetHex(left)) == (old(writer.hex) || SetsHex(v))
    {
      ghost var more := ElementsText(left[1..], writer.hex || SetsHex(left[0]), "]" + rest);
      WriteValue(writer, values[i], if |left| == 1 then "]" + rest else "," + more);
      i := i + 1;
      if i < |values| {
        Emit(writer, ",", more);
      }
      left := left[1..];
    }
    Emit(writer, "]", rest);
  }

  method WriteDictionary(writer: OStream, v: Value, ghost rest: string)
    requires writer.Valid() && v.Dictionary?
    modifies writer
    ensures writer.Valid()
    ensures Put(writer.State(), rest) == Put(old(writer.State()), Text(v, old(writer.hex), rest))
    ensures writer.hex == (old(writer.hex) || SetsHex(v))
    decreases v, 0
  {
    var entries := v.entries;
    Emit(writer, "{", EntriesText(entries, writer.hex, "}" + rest));
    var i := 0;
    ghost var left := entries;
    while i < |entries|
      invariant i <= |entries| && left == entries[i..] && writer.Valid()
      invariant Put(writer.State(), EntriesText(left, writer.hex, "}" + rest))
        == Put(old(writer.State()), Text(v, old(writer.hex), rest))
      invariant (writer.hex || EntriesSetHex(left)) == (old(writer.hex) || SetsHex(v))
    {
      ghost var more := EntriesText(left[1..], writer.hex || EntrySetsHex(left[0]), "}" + rest);
      ghost var after := if |left| == 1 then "}" + rest else "," + more;
      ghost var value := Text(left[0].1, writer.hex || UEscapes(left[0].0), after);
      WriteEscapedString(writer, entries[i].0, ":" + value);
      Emit(writer, ":", value);
      WriteValue(writer, entries[i].1, after);
      i := i + 1;
      if i < |entries| {
        Emit(writer, ",", more);
      }
      left := left[1..];
    }
    Emit(writer, "}", rest);
  }
}
