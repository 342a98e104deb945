/** The printer against the RFC 8259 reader: exactly when a printed value reads back. */
module JsonLaws {
  import opened Wrappers
  import opened Seqs
  import opened SpanData
  import opened JsonText
  import opened JsonReader

  // ---------- What a value means ----------

  function JsonOf(v: Value): Json {
    match v
    case Bool(b) => JBool(b)
    case Number(NaN) => JString("NaN")
    case Number(NegInf) => JString("-Inf")
    case Number(PosInf) => JString("+Inf")
    case Number(Finite(text)) => JNumber(text)
    case Signed(i) => JNumber(IntText(i, false))
    case Unsigned(u) => JNumber(IntText(u, false))
    case String(s) => JString(s)
    case Null => JNull
    case Array(values) => JArray(ElementsJson(values))
    case Dictionary(entries) => JObject(EntriesJson(entries))
  }

  function ElementsJson(values: seq<Value>): (r: seq<Json>)
    ensures |r| == |values|
  {
    if |values| == 0 then [] else [JsonOf(values[0])] + ElementsJson(values[1..])
  }

  function EntriesJson(entries: seq<(string, Value)>): (r: seq<(string, Json)>)
    ensures |r| == |entries|
  {
    if |entries| == 0 then [] else [EntryJson(entries[0])] + EntriesJson(entries[1..])
  }

  function EntryJson(entry: (string, Value)): (string, Json) {
    (entry.0, JsonOf(entry.1))
  }

  /** The text given for a finite double is a number of section 6. */
  predicate WellFormed(v: Value) {
    match v
    case Number(Finite(text)) => IsNumber(text)
    case Array(values) => ElementsWellFormed(values)
    case Dictionary(entries) => EntriesWellFormed(entries)
    case _ => true
  }

  predicate ElementsWellFormed(values: seq<Value>) {
    |values| > 0 ==> WellFormed(values[0]) && ElementsWellFormed(values[1..])
  }

  predicate EntriesWellFormed(entries: seq<(string, Value)>) {
    |entries| > 0 ==> EntryWellFormed(entries[0]) && EntriesWellFormed(entries[1..])
  }

  predicate EntryWellFormed(entry: (string, Value)) {
    WellFormed(entry.1)
  }

  // ---------- The condition ----------

  /** An integer looks the same in both bases only when it is a single decimal digit. */
  predicate IntSafe(i: int, hex: bool) {
    !hex || 0 <= i < 10
  }

  /** No integer outside 0..9 is printed after a `\u` escape. */
  predicate Safe(v: Value, hex: bool) {
    match v
    case Signed(i) => IntSafe(i, hex)
    case Unsigned(u) => IntSafe(u, hex)
    case Array(values) => ElementsSafe(values, hex)
    case Dictionary(entries) => EntriesSafe(entries, hex)
    case _ => true
  }

  predicate ElementsSafe(values: seq<Value>, hex: bool) {
    |values| > 0 ==> Safe(values[0], hex) && ElementsSafe(values[1..], hex || SetsHex(values[0]))
  }

  predicate EntriesSafe(entries: seq<(string, Value)>, hex: bool) {
    |entries| > 0 ==>
      EntrySafe(entries[0], hex) && EntriesSafe(entries[1..], hex || EntrySetsHex(entries[0]))
  }

  predicate EntrySafe(entry: (string, Value), hex: bool) {
    Safe(entry.1, hex || UEscapes(entry.0))
  }

  /** What follows a value cannot continue a number. */
  predicate Delimited(rest: string) {
    |rest| > 0 ==> !IsNumberChar(rest[0])
  }

  // ---------- Strings ----------

  lemma HexValueOfDigit(d: int)
    requires 0 <= d < 16
    ensures HexValue(DigitChar(d)) == d
  {
  }

  lemma ControlDigits(n: int)
    requires 0 <= n < 32
    ensures Padded(Digits(n, 16), 4) == ['0', '0', DigitChar(n / 16), DigitChar(n % 16)]
  {
    if n < 16 {
      assert Digits(n, 16) == [DigitChar(n)];
      assert seq(3, _ => '0') == ['0', '0', '0'];
    } else {
      assert n / 16 == 1;
      assert Digits(n, 16) == [DigitChar(1)] + [DigitChar(n % 16)];
      assert seq(2, _ => '0') == ['0', '0'];
    }
  }

  lemma ReadControl(c: char, rest: string)
    requires NeedsU(c)
    ensures ReadChar(EscapeChar(c) + rest) == Some((c, rest))
  {
    var n := c as int;
    ControlDigits(n);
    HexValueOfDigit(n / 16);
    HexValueOfDigit(n % 16);
    var text := ['\\', 'u', '0', '0', DigitChar(n / 16), DigitChar(n % 16)] + rest;
    assert EscapeChar(c) + rest == text;
    var t := ['0', '0', DigitChar(n / 16), DigitChar(n % 16)] + rest;
    assert text[1..] == ['u'] + t && text[1..][1..] == t && t[4..] == rest;
    assert ReadHex4(t) == Some(n);
  }

  lemma ReadEscaped(c: char, rest: string)
    ensures ReadChar(EscapeChar(c) + rest) == Some((c, rest))
    ensures |EscapeChar(c)| > 0 && EscapeChar(c)[0] != '"'
  {
    if NeedsU(c) {
      ReadControl(c, rest);
    } else {
      var text := EscapeChar(c) + rest;
      if |EscapeChar(c)| == 2 {
        assert text[1..] == [EscapeChar(c)[1]] + rest && text[1..][1..] == rest;
      } else {
        assert text[1..] == rest;
      }
    }
  }

  lemma {:induction false} ReadEscapedString(s: string, rest: string)
    ensures ReadChars(Escaped(s, "\"" + rest)) == Some((s, rest))
  {
    hide EscapeChar, ReadChar;
    if |s| == 0 {
      assert ("\"" + rest)[1..] == rest;
    } else {
      var tail := Escaped(s[1..], "\"" + rest);
      ReadEscaped(s[0], tail);
      ReadEscapedString(s[1..], rest);
      assert s == [s[0]] + s[1..];
    }
  }

  // ---------- Numbers ----------

  predicate AllNumberChars(t: string) {
    |t| > 0 ==> IsNumberChar(t[0]) && AllNumberChars(t[1..])
  }

  lemma {:induction false} DroppedDigits(t: string)
    requires AllNumberChars(DropDigits(t))
    ensures AllNumberChars(t)
  {
    if |t| > 0 && IsDigit(t[0]) {
      DroppedDigits(t[1..]);
    }
  }

  lemma NumberChars(t: string)
    requires IsNumber(t)
    ensures AllNumberChars(t)
  {
    var u := if t[0] == '-' then t[1..] else t;
    var afterInt := if u[0] == '0' then u[1..] else DropDigits(u);
    AfterIntChars(afterInt);
    if u[0] != '0' {
      DroppedDigits(u);
    }
  }

  lemma AfterIntChars(t: string)
    requires AfterInt(t)
    ensures AllNumberChars(t)
  {
    if |t| > 0 && t[0] == '.' {
      AfterFracChars(DropDigits(t[1..]));
      DroppedDigits(t[1..]);
    } else {
      AfterFracChars(t);
    }
  }

  lemma AfterFracChars(t: string)
    requires AfterFrac(t)
    ensures AllNumberChars(t)
  {
    if |t| > 0 {
      var u := if |t| > 1 && (t[1] == '+' || t[1] == '-') then t[2..] else t[1..];
      DroppedDigits(u);
      if |t| > 1 && (t[1] == '+' || t[1] == '-') {
        assert t[1..][1..] == u;
      }
    }
  }

  lemma {:induction false} LexemeOf(t: string, rest: string)
    requires AllNumberChars(t) && Delimited(rest)
    ensures Lexeme(t + rest) == t
  {
    if |t| == 0 {
      assert t + rest == rest;
    } else {
      LexemeOf(t[1..], rest);
      assert (t + rest)[1..] == t[1..] + rest;
      assert t == [t[0]] + t[1..];
    }
  }

  lemma ReadNumberText(t: string, rest: string)
    requires IsNumber(t) && Delimited(rest)
    ensures |t| > 0 && (t[0] == '-' || IsDigit(t[0]))
    ensures ReadValue(t + rest) == Some((JNumber(t), rest))
  {
    NumberChars(t);
    LexemeOf(t, rest);
    hide IsNumber;
    assert (t + rest)[|t|..] == rest;
  }

  lemma {:induction false} DropDigitsSnoc(t: string, c: char)
    requires DropDigits(t) == "" && IsDigit(c)
    ensures DropDigits(t + [c]) == ""
  {
    if |t| > 0 {
      DropDigitsSnoc(t[1..], c);
      assert (t + [c])[1..] == t[1..] + [c];
    } else {
      assert t + [c] == [c] && [c][1..] == "";
    }
  }

  /** Decimal digits make a number: only digits, and no leading zero. */
  lemma {:induction false} DecimalDigits(n: nat)
    ensures DropDigits(Digits(n, 10)) == ""
    ensures IsDigit(Digits(n, 10)[0]) && (Digits(n, 10)[0] == '0' ==> n == 0)
    decreases n
  {
    if n < 10 {
      assert [DigitChar(n)][1..] == "";
    } else {
      DecimalDigits(n / 10);
      DropDigitsSnoc(Digits(n / 10, 10), DigitChar(n % 10));
    }
  }

  lemma DecimalIsNumber(i: int)
    requires -0x8000_0000_0000_0000 <= i < 0x1_0000_0000_0000_0000
    ensures IsNumber(IntText(i, false))
  {
    var n := if i < 0 then -i else i;
    DecimalDigits(n);
    var digits := Digits(n, 10);
    assert IsUnsignedNumber(digits) by {
      if digits[0] == '0' {
        assert digits == "0";
      }
    }
    if i < 0 {
      assert IntText(i, false)[1..] == digits;
    }
  }

  lemma SafeIntText(i: int, hex: bool)
    requires -0x8000_0000_0000_0000 <= i < 0x1_0000_0000_0000_0000 && IntSafe(i, hex)
    ensures IntText(i, hex) == IntText(i, false)
  {
  }

  // ---------- Values ----------

  /** Every value's text starts with a character that is neither white space nor a closing bracket. */
  lemma TextStarts(v: Value, hex: bool, rest: string)
    requires WellFormed(v)
    ensures |Text(v, hex, rest)| > 0
    ensures var c := Text(v, hex, rest)[0]; c > ' ' && c != ']' && c != '}' && c != ',' && c != ':'
  {
    match v {
      case Signed(i) => IntTextStarts(i, hex);
      case Unsigned(u) => IntTextStarts(u, hex);
      case _ =>
    }
  }

  lemma {:induction false} DigitsStart(n: nat, b: int)
    requires 2 <= b <= 16
    ensures HexValue(Digits(n, b)[0]) >= 0
    decreases n
  {
    if n < b {
      HexValueOfDigit(n);
    } else {
      DigitsStart(n / b, b);
    }
  }

  lemma IntTextStarts(i: int, hex: bool)
    requires -0x8000_0000_0000_0000 <= i < 0x1_0000_0000_0000_0000
    ensures IntText(i, hex)[0] == '-' || HexValue(IntText(i, hex)[0]) >= 0
  {
    if hex {
      DigitsStart(if i < 0 then i + 0x1_0000_0000_0000_0000 else i, 16);
    } else if i >= 0 {
      DigitsStart(i, 10);
    }
  }

  lemma ReadQuoted(s: string, rest: string)
    ensures ReadValue(Quoted(s, rest)) == Some((JString(s), rest))
  {
    hide ReadChars, Escaped;
    ReadEscapedString(s, rest);
    assert Quoted(s, rest)[1..] == Escaped(s, "\"" + rest);
  }

  lemma ReadWord(word: string, v: Json, rest: string)
    requires |word| > 0
    ensures ReadLiteral(word + rest, word, v) == Some((v, rest))
  {
    assert (word + rest)[|word|..] == rest;
  }

  lemma ReadDouble(d: Double, rest: string)
    requires WellFormed(Number(d)) && Delimited(rest)
    ensures ReadValue(DoubleText(d) + rest) == Some((JsonOf(Number(d)), rest))
  {
    hide ReadValue, Quoted;
    match d {
      case NaN =>
        assert "\"" + "NaN" + "\"" == "\"NaN\"";
        PlainQuoted("NaN", rest);
        ReadQuoted("NaN", rest);
      case NegInf =>
        assert "\"" + "-Inf" + "\"" == "\"-Inf\"";
        PlainQuoted("-Inf", rest);
        ReadQuoted("-Inf", rest);
      case PosInf =>
        assert "\"" + "+Inf" + "\"" == "\"+Inf\"";
        PlainQuoted("+Inf", rest);
        ReadQuoted("+Inf", rest);
      case Finite(text) =>
        ReadNumberText(text, rest);
    }
  }

  /** A safe value is read back as what it means, up to exactly its end, whatever follows. */
  lemma {:induction false} ReadsBack(v: Value, hex: bool, rest: string)
    requires WellFormed(v) && Safe(v, hex) && Delimited(rest)
    ensures ReadValue(Text(v, hex, rest)) == Some((JsonOf(v), rest))
    decreases v, 1
  {
    match v {
      case Bool(b) => ReadWord(if b then "true" else "false", JBool(b), rest);
      case Null => ReadWord("null", JNull, rest);
      case Number(d) => ReadDouble(d, rest);
      case Signed(i) => ReadInt(i, hex, rest);
      case Unsigned(u) => ReadInt(u, hex, rest);
      case String(s) => ReadQuoted(s, rest);
      case Array(values) =>
        if |values| > 0 { ElementsReadBack(values, hex, rest); }
        ReadArray(values, hex, rest);
      case Dictionary(entries) =>
        if |entries| > 0 { EntriesReadBack(entries, hex, rest); }
        ReadDictionary(entries, hex, rest);
    }
    hide ReadLiteral, ReadNumber, ReadElements, ReadMembers, ElementsText, EntriesText, IntText, Quoted;
  }

  lemma ReadInt(i: int, hex: bool, rest: string)
    requires -0x8000_0000_0000_0000 <= i < 0x1_0000_0000_0000_0000 && IntSafe(i, hex) && Delimited(rest)
    ensures ReadValue(IntText(i, hex) + rest) == Some((JNumber(IntText(i, false)), rest))
  {
    hide IntText, ReadValue;
    SafeIntText(i, hex);
    DecimalIsNumber(i);
    ReadNumberText(IntText(i, hex), rest);
  }

  /** An array is its elements between brackets. */
  lemma ReadArray(values: seq<Value>, hex: bool, rest: string)
    requires ElementsWellFormed(values)
    ensures ReadValue(Text(Array(values), hex, rest)) ==
      if |values| == 0 then Some((JArray([]), rest))
      else match ReadElements(ElementsText(values, hex, "]" + rest))
        case None => None
        case Some((items, t)) => Some((JArray(items), t))
  {
    hide ReadElements, ElementsText;
    var body := ElementsText(values, hex, "]" + rest);
    assert Text(Array(values), hex, rest) == "[" + body && ("[" + body)[1..] == body;
    ElementsStart(values, hex, rest);
  }

  lemma ElementsStart(values: seq<Value>, hex: bool, rest: string)
    requires ElementsWellFormed(values)
    ensures var body := ElementsText(values, hex, "]" + rest);
      |body| > 0 && Skip(body) == body && (body[0] == ']' <==> |values| == 0) && (|values| == 0 ==> body[1..] == rest)
  {
    hide Text;
    if |values| == 0 {
      assert ("]" + rest)[1..] == rest;
    } else {
      TextStarts(values[0], hex, if |values| == 1 then "]" + rest
        else "," + ElementsText(values[1..], hex || SetsHex(values[0]), "]" + rest));
    }
  }

  /** Elements are read one by one. */
  lemma ReadElementsStep(values: seq<Value>, hex: bool, rest: string)
    requires |values| > 0 && ElementsWellFormed(values)
    requires ReadValue(Text(values[0], hex, ElementsTail(values, hex, rest)))
      == Some((JsonOf(values[0]), ElementsTail(values, hex, rest)))
    ensures ReadElements(ElementsText(values, hex, "]" + rest)) ==
      if |values| == 1 then Some(([JsonOf(values[0])], rest))
      else match ReadElements(ElementsText(values[1..], hex || SetsHex(values[0]), "]" + rest))
        case None => None
        case Some((items, t)) => Some(([JsonOf(values[0])] + items, t))
  {
    hide Text, ReadValue;
    if |values| == 1 {
      assert ("]" + rest)[1..] == rest;
    } else {
      var hex1 := hex || SetsHex(values[0]);
      var body := ElementsText(values[1..], hex1, "]" + rest);
      ElementsStart(values[1..], hex1, rest);
      assert ("," + body)[1..] == body;
    }
  }

  function ElementsTail(values: seq<Value>, hex: bool, rest: string): (t: string)
    requires |values| > 0
    ensures Delimited(t)
  {
    if |values| == 1 then "]" + rest
    else "," + ElementsText(values[1..], hex || SetsHex(values[0]), "]" + rest)
  }

  lemma {:induction false} ElementsReadBack(values: seq<Value>, hex: bool, rest: string)
    requires |values| > 0 && ElementsWellFormed(values) && ElementsSafe(values, hex)
    ensures ReadElements(ElementsText(values, hex, "]" + rest)) == Some((ElementsJson(values), rest))
    decreases values
  {
    ReadsBack(values[0], hex, ElementsTail(values, hex, rest));
    ReadElementsStep(values, hex, rest);
    if |values| > 1 {
      ElementsReadBack(values[1..], hex || SetsHex(values[0]), rest);
    } else {
      assert ElementsJson(values) == [JsonOf(values[0])];
    }
    hide ReadValue, ReadElements, ElementsText, Text;
  }

  lemma ReadDictionary(entries: seq<(string, Value)>, hex: bool, rest: string)
    requires EntriesWellFormed(entries)
    ensures ReadValue(Text(Dictionary(entries), hex, rest)) ==
      if |entries| == 0 then Some((JObject([]), rest))
      else match ReadMembers(EntriesText(entries, hex, "}" + rest))
        case None => None
        case Some((members, t)) => Some((JObject(members), t))
  {
    hide ReadMembers, EntriesText;
    var body := EntriesText(entries, hex, "}" + rest);
    assert Text(Dictionary(entries), hex, rest) == "{" + body && ("{" + body)[1..] == body;
    EntriesStart(entries, hex, rest);
  }

  lemma EntriesStart(entries: seq<(string, Value)>, hex: bool, rest: string)
    ensures var body := EntriesText(entries, hex, "}" + rest);
      |body| > 0 && Skip(body) == body && (body[0] == '}' <==> |entries| == 0) && (|entries| == 0 ==> body[1..] == rest)
  {
    hide Text, Escaped;
    if |entries| == 0 {
      assert ("}" + rest)[1..] == rest;
    }
  }

  function EntriesTail(entries: seq<(string, Value)>, hex: bool, rest: string): (t: string)
    requires |entries| > 0
    ensures Delimited(t)
  {
    if |entries| == 1 then "}" + rest
    else "," + EntriesText(entries[1..], hex || EntrySetsHex(entries[0]), "}" + rest)
  }

  /** A member is its name and its value. */
  lemma ReadEntry(entry: (string, Value), hex: bool, rest: string)
    requires EntryWellFormed(entry)
    ensures ReadMember(EntryText(entry, hex, rest)) ==
      match ReadValue(Text(entry.1, hex || UEscapes(entry.0), rest))
        case None => None
        case Some((v, t)) => Some(((entry.0, v), t))
  {
    var hex1 := hex || UEscapes(entry.0);
    var value := Text(entry.1, hex1, rest);
    TextStarts(entry.1, hex1, rest);
    hide Text, ReadChars, Escaped;
    ReadEscapedString(entry.0, ":" + value);
    assert Quoted(entry.0, ":" + value)[1..] == Escaped(entry.0, "\"" + (":" + value));
    assert (":" + value)[1..] == value;
  }

  lemma ReadMembersStep(entries: seq<(string, Value)>, hex: bool, rest: string)
    requires |entries| > 0
    requires ReadMember(EntryText(entries[0], hex, EntriesTail(entries, hex, rest)))
      == Some((EntryJson(entries[0]), EntriesTail(entries, hex, rest)))
    ensures ReadMembers(EntriesText(entries, hex, "}" + rest)) ==
      if |entries| == 1 then Some(([EntryJson(entries[0])], rest))
      else match ReadMembers(EntriesText(entries[1..], hex || EntrySetsHex(entries[0]), "}" + rest))
        case None => None
        case Some((members, t)) => Some(([EntryJson(entries[0])] + members, t))
  {
    hide EntryText, ReadMember, EntryJson;
    if |entries| == 1 {
      assert ("}" + rest)[1..] == rest;
    } else {
      var hex1 := hex || EntrySetsHex(entries[0]);
      var body := EntriesText(entries[1..], hex1, "}" + rest);
      EntriesStart(entries[1..], hex1, rest);
      assert ("," + body)[1..] == body;
    }
  }

  lemma {:induction false} EntryReadsBack(entry: (string, Value), hex: bool, rest: string)
    requires EntryWellFormed(entry) && EntrySafe(entry, hex) && Delimited(rest)
    ensures ReadMember(EntryText(entry, hex, rest)) == Some((EntryJson(entry), rest))
    decreases entry, 0
  {
    ReadEntry(entry, hex, rest);
    ReadsBack(entry.1, hex || UEscapes(entry.0), rest);
    hide ReadValue, Text, ReadMember, EntryText;
  }

  lemma {:induction false} EntriesReadBack(entries: seq<(string, Value)>, hex: bool, rest: string)
    requires |entries| > 0 && EntriesWellFormed(entries) && EntriesSafe(entries, hex)
    ensures ReadMembers(EntriesText(entries, hex, "}" + rest)) == Some((EntriesJson(entries), rest))
    decreases entries
  {
    EntryReadsBack(entries[0], hex, EntriesTail(entries, hex, rest));
    ReadMembersStep(entries, hex, rest);
    if |entries| > 1 {
      EntriesReadBack(entries[1..], hex || EntrySetsHex(entries[0]), rest);
    } else {
      assert EntriesJson(entries) == [EntryJson(entries[0])];
    }
    hide ReadMember, ReadMembers, EntriesText, EntryText;
  }

  // ---------- Unsafe values ----------

  lemma SameDigit(c: int, d: int)
    requires 0 <= c < 16 && 0 <= d < 16 && DigitChar(c) == DigitChar(d)
    ensures c == d
  {
  }

  /** A digit string stands for more in base 16 than in base 10, unless it is a single digit. */
  lemma {:induction false} HexIsLarger(m: nat, i: nat)
    requires Digits(m, 16) == Digits(i, 10)
    ensures m >= i && (i >= 10 ==> m > i)
    decreases i
  {
    var h, d := Digits(m, 16), Digits(i, 10);
    if i < 10 {
      assert m < 16;
      SameDigit(m, i);
    } else {
      assert |Digits(i / 10, 10)| + 1 == |d|;
      assert h[..|h| - 1] == Digits(m / 16, 16) && d[..|d| - 1] == Digits(i / 10, 10);
      assert h[|h| - 1] == DigitChar(m % 16) && d[|d| - 1] == DigitChar(i % 10);
      SameDigit(m % 16, i % 10);
      HexIsLarger(m / 16, i / 10);
    }
  }

  lemma {:induction false} PrefixOfDigits(n: nat, k: nat) returns (m: nat)
    requires 0 < k <= |Digits(n, 16)|
    ensures m <= n && Digits(n, 16)[..k] == Digits(m, 16)
    decreases n
  {
    if k == |Digits(n, 16)| {
      m := n;
      assert Digits(n, 16)[..k] == Digits(n, 16);
    } else {
      m := PrefixOfDigits(n / 16, k);
    }
  }

  lemma {:induction false} LexemeStaysInside(t: string, rest: string)
    requires Delimited(rest)
    ensures Lexeme(t + rest) <= t
  {
    if |t| == 0 {
      assert t + rest == rest;
    } else {
      LexemeStaysInside(t[1..], rest);
      assert (t + rest)[1..] == t[1..] + rest;
      assert t == [t[0]] + t[1..];
    }
  }

  /** An integer that is not a single digit, printed after a `\u` escape, is misread. */
  lemma WrongBase(i: int, rest: string)
    requires -0x8000_0000_0000_0000 <= i < 0x1_0000_0000_0000_0000 && !IntSafe(i, true) && Delimited(rest)
    ensures var r := ReadValue(IntText(i, true) + rest); r.Some? ==> r.value.0 != JNumber(IntText(i, false))
  {
    var n := if i < 0 then i + 0x1_0000_0000_0000_0000 else i;
    var text := Digits(n, 16);
    var lexeme := Lexeme(text + rest);
    LexemeStaysInside(text, rest);
    DigitsStart(n, 16);
    if lexeme == IntText(i, false) {
      DecimalDigits(if i < 0 then -i else i);
      if i >= 0 {
        assert lexeme == text[..|lexeme|];
        var m := PrefixOfDigits(n, |lexeme|);
        HexIsLarger(m, i);
      }
    }
    hide Lexeme, IsNumber, Digits;
  }

  predicate ReadsAs<A(==)>(r: Option<(A, string)>, v: A) {
    r.Some? && r.value.0 == v
  }

  /** An unsafe value is never read back as what it means. */
  lemma {:induction false} Misread(v: Value, hex: bool, rest: string)
    requires WellFormed(v) && !Safe(v, hex) && Delimited(rest)
    ensures !ReadsAs(ReadValue(Text(v, hex, rest)), JsonOf(v))
    decreases v, 1
  {
    match v {
      case Signed(i) => WrongBase(i, rest);
      case Unsigned(u) => WrongBase(u, rest);
      case Array(values) =>
        ElementsMisread(values, hex, rest);
        ReadArray(values, hex, rest);
      case Dictionary(entries) =>
        EntriesMisread(entries, hex, rest);
        ReadDictionary(entries, hex, rest);
    }
    hide ReadValue, ReadElements, ReadMembers, ElementsText, EntriesText, IntText;
  }

  lemma FirstElement(values: seq<Value>, hex: bool, rest: string)
    requires |values| > 0 && ReadElements(ElementsText(values, hex, "]" + rest)).Some?
    ensures var first := ReadValue(Text(values[0], hex, ElementsTail(values, hex, rest)));
      var items := ReadElements(ElementsText(values, hex, "]" + rest)).value.0;
      first.Some? && |items| > 0 && items[0] == first.value.0
  {
    hide ReadValue, Text;
  }

  lemma {:induction false} ElementsMisread(values: seq<Value>, hex: bool, rest: string)
    requires ElementsWellFormed(values) && !ElementsSafe(values, hex)
    ensures |values| > 0 && !ReadsAs(ReadElements(ElementsText(values, hex, "]" + rest)), ElementsJson(values))
    decreases values
  {
    hide ReadValue, ReadElements, ElementsText, Text;
    if !Safe(values[0], hex) {
      Misread(values[0], hex, ElementsTail(values, hex, rest));
      if ReadElements(ElementsText(values, hex, "]" + rest)).Some? {
        FirstElement(values, hex, rest);
      }
    } else {
      ReadsBack(values[0], hex, ElementsTail(values, hex, rest));
      ElementsMisread(values[1..], hex || SetsHex(values[0]), rest);
      ReadElementsStep(values, hex, rest);
      assert ElementsJson(values)[1..] == ElementsJson(values[1..]);
    }
  }

  lemma {:induction false} EntryMisread(entry: (string, Value), hex: bool, rest: string)
    requires EntryWellFormed(entry) && !EntrySafe(entry, hex) && Delimited(rest)
    ensures !ReadsAs(ReadMember(EntryText(entry, hex, rest)), EntryJson(entry))
    decreases entry, 0
  {
    hide ReadValue, Text, ReadMember, EntryText;
    ReadEntry(entry, hex, rest);
    Misread(entry.1, hex || UEscapes(entry.0), rest);
  }

  lemma FirstMember(entries: seq<(string, Value)>, hex: bool, rest: string)
    requires |entries| > 0 && ReadMembers(EntriesText(entries, hex, "}" + rest)).Some?
    ensures var first := ReadMember(EntryText(entries[0], hex, EntriesTail(entries, hex, rest)));
      var members := ReadMembers(EntriesText(entries, hex, "}" + rest)).value.0;
      first.Some? && |members| > 0 && members[0] == first.value.0
  {
    hide ReadMember, EntryText;
  }

  lemma {:induction false} EntriesMisread(entries: seq<(string, Value)>, hex: bool, rest: string)
    requires EntriesWellFormed(entries) && !EntriesSafe(entries, hex)
    ensures |entries| > 0 && !ReadsAs(ReadMembers(EntriesText(entries, hex, "}" + rest)), EntriesJson(entries))
    decreases entries
  {
    hide ReadMember, ReadMembers, EntriesText, EntryText;
    if !EntrySafe(entries[0], hex) {
      EntryMisread(entries[0], hex, EntriesTail(entries, hex, rest));
      if ReadMembers(EntriesText(entries, hex, "}" + rest)).Some? {
        FirstMember(entries, hex, rest);
      }
    } else {
      EntryReadsBack(entries[0], hex, EntriesTail(entries, hex, rest));
      EntriesMisread(entries[1..], hex || EntrySetsHex(entries[0]), rest);
      ReadMembersStep(entries, hex, rest);
      assert EntriesJson(entries)[1..] == EntriesJson(entries[1..]);
    }
  }

  /**
    A printed value followed by any delimiter reads back as its meaning, up to
    exactly its end, if and only if no integer outside 0..9 comes after a `\u`
    escape.
   */
  lemma ReadsBackExactly(v: Value, hex: bool, rest: string)
    requires WellFormed(v) && Delimited(rest)
    ensures ReadValue(Text(v, hex, rest)) == Some((JsonOf(v), rest)) <==> Safe(v, hex)
  {
    hide ReadValue, Text;
    if Safe(v, hex) {
      ReadsBack(v, hex, rest);
    } else {
      Misread(v, hex, rest);
    }
  }

  // ---------- Sufficient: no control character beyond the five short ones ----------

  /** Where no `\u` escape is needed, a writer that starts in decimal stays in decimal. */
  lemma {:induction false} DecimalStaysSafe(v: Value)
    requires !SetsHex(v)
    ensures Safe(v, false)
    decreases v, 1
  {
    match v {
      case Array(values) => ElementsStaySafe(values);
      case Dictionary(entries) => EntriesStaySafe(entries);
      case _ =>
    }
  }

  lemma {:induction false} ElementsStaySafe(values: seq<Value>)
    requires !ElementsSetHex(values)
    ensures ElementsSafe(values, false)
    decreases values
  {
    if |values| > 0 {
      DecimalStaysSafe(values[0]);
      ElementsStaySafe(values[1..]);
    }
  }

  lemma {:induction false} EntryStaysSafe(entry: (string, Value))
    requires !EntrySetsHex(entry)
    ensures EntrySafe(entry, false)
    decreases entry, 0
  {
    DecimalStaysSafe(entry.1);
  }

  lemma {:induction false} EntriesStaySafe(entries: seq<(string, Value)>)
    requires !EntriesSetHex(entries)
    ensures EntriesSafe(entries, false)
    decreases entries
  {
    if |entries| > 0 {
      EntryStaysSafe(entries[0]);
      EntriesStaySafe(entries[1..]);
    }
  }

  // ---------- What follows a value stays behind it ----------

  lemma {:induction false} EscapedAppend(s: string, rest: string, more: string)
    ensures Escaped(s, rest) + more == Escaped(s, rest + more)
  {
    hide EscapeChar;
    if |s| > 0 {
      EscapedAppend(s[1..], rest, more);
      assert (EscapeChar(s[0]) + Escaped(s[1..], rest)) + more == EscapeChar(s[0]) + (Escaped(s[1..], rest) + more);
    }
  }

  lemma QuotedAppend(s: string, rest: string, more: string)
    ensures Quoted(s, rest) + more == Quoted(s, rest + more)
  {
    hide Escaped;
    EscapedAppend(s, "\"" + rest, more);
    assert ("\"" + rest) + more == "\"" + (rest + more);
  }

  /** Text written after a value is the same as text that follows it. */
  lemma {:induction false} TextAppend(v: Value, hex: bool, rest: string, more: string)
    ensures Text(v, hex, rest) + more == Text(v, hex, rest + more)
    decreases v, 1
  {
    match v {
      case Bool(b) => Associate(if b then "true" else "false", rest, more);
      case Number(d) => Associate(DoubleText(d), rest, more);
      case Signed(i) => Associate(IntText(i, hex), rest, more);
      case Unsigned(u) => Associate(IntText(u, hex), rest, more);
      case String(s) => QuotedAppend(s, rest, more);
      case Null => Associate("null", rest, more);
      case Array(values) =>
        ElementsAppend(values, hex, "]" + rest, more);
        Associate("[", ElementsText(values, hex, "]" + rest), more);
        Associate("]", rest, more);
      case Dictionary(entries) =>
        EntriesAppend(entries, hex, "}" + rest, more);
        Associate("{", EntriesText(entries, hex, "}" + rest), more);
        Associate("}", rest, more);
    }
    hide ElementsText, EntriesText, IntText, DoubleText, Quoted;
  }

  lemma {:induction false} ElementsAppend(values: seq<Value>, hex: bool, rest: string, more: string)
    ensures ElementsText(values, hex, rest) + more == ElementsText(values, hex, rest + more)
    decreases values
  {
    if |values| == 1 {
      TextAppend(values[0], hex, rest, more);
    } else if |values| > 1 {
      var hex1 := hex || SetsHex(values[0]);
      var tail := ElementsText(values[1..], hex1, rest);
      ElementsAppend(values[1..], hex1, rest, more);
      TextAppend(values[0], hex, "," + tail, more);
      Associate(",", tail, more);
    }
    hide Text, SetsHex;
  }

  lemma {:induction false} EntryAppend(entry: (string, Value), hex: bool, rest: string, more: string)
    ensures EntryText(entry, hex, rest) + more == EntryText(entry, hex, rest + more)
    decreases entry, 0
  {
    var value := Text(entry.1, hex || UEscapes(entry.0), rest);
    TextAppend(entry.1, hex || UEscapes(entry.0), rest, more);
    QuotedAppend(entry.0, ":" + value, more);
    Associate(":", value, more);
    hide Text, Quoted, UEscapes;
  }

  lemma {:induction false} EntriesAppend(entries: seq<(string, Value)>, hex: bool, rest: string, more: string)
    ensures EntriesText(entries, hex, rest) + more == EntriesText(entries, hex, rest + more)
    decreases entries
  {
    if |entries| == 1 {
      EntryAppend(entries[0], hex, rest, more);
    } else if |entries| > 1 {
      var hex1 := hex || EntrySetsHex(entries[0]);
      var tail := EntriesText(entries[1..], hex1, rest);
      EntriesAppend(entries[1..], hex1, rest, more);
      EntryAppend(entries[0], hex, "," + tail, more);
      Associate(",", tail, more);
    }
    hide EntryText, EntrySetsHex;
  }
}
