/**
  A reader of JSON texts: the grammar of RFC 8259. It is the specification the
  printer is measured against. A number is kept as its lexeme.
 */
module JsonReader {
  import opened Wrappers

  datatype Json =
    | JNull
    | JBool(b: bool)
    | JNumber(lexeme: string)
    | JString(s: string)
    | JArray(items: seq<Json>)
    | JObject(members: seq<(string, Json)>)

  // ---------- Section 2: white space ----------

  function Skip(t: string): (r: string)
    ensures |r| <= |t|
  {
    if |t| > 0 && (t[0] == ' ' || t[0] == '\t' || t[0] == '\n' || t[0] == '\r') then Skip(t[1..]) else t
  }

  // ---------- Section 6: numbers ----------

  predicate IsDigit(c: char) {
    '0' <= c <= '9'
  }

  predicate IsNumberChar(c: char) {
    IsDigit(c) || c == '-' || c == '+' || c == '.' || c == 'e' || c == 'E'
  }

  function DropDigits(t: string): (r: string)
    ensures |r| <= |t|
  {
    if |t| > 0 && IsDigit(t[0]) then DropDigits(t[1..]) else t
  }

  /** [ minus ] int [ frac ] [ exp ] */
  predicate IsNumber(t: string) {
    if |t| > 0 && t[0] == '-' then IsUnsignedNumber(t[1..]) else IsUnsignedNumber(t)
  }

  predicate IsUnsignedNumber(t: string) {
    |t| > 0 && IsDigit(t[0]) && AfterInt(if t[0] == '0' then t[1..] else DropDigits(t))
  }

  predicate AfterInt(t: string) {
    if |t| > 0 && t[0] == '.' then |t| > 1 && IsDigit(t[1]) && AfterFrac(DropDigits(t[1..])) else AfterFrac(t)
  }

  predicate AfterFrac(t: string) {
    if |t| > 0 && (t[0] == 'e' || t[0] == 'E') then
      var u := if |t| > 1 && (t[1] == '+' || t[1] == '-') then t[2..] else t[1..];
      |u| > 0 && DropDigits(u) == ""
    else t == ""
  }

  /** The longest run of characters that can occur in a number. */
  function Lexeme(t: string): (r: string)
    ensures |r| <= |t|
  {
    if |t| > 0 && IsNumberChar(t[0]) then [t[0]] + Lexeme(t[1..]) else ""
  }

  function ReadNumber(t: string): (r: Option<(Json, string)>)
    ensures r.Some? ==> |r.value.1| < |t|
  {
    var lexeme := Lexeme(t);
    if IsNumber(lexeme) then Some((JNumber(lexeme), t[|lexeme|..])) else None
  }

  // ---------- Section 7: strings ----------

  function HexValue(c: char): int {
    if '0' <= c <= '9' then c as int - 48
    else if 'a' <= c <= 'f' then c as int - 87
    else if 'A' <= c <= 'F' then c as int - 55
    else -1
  }

  /** The code unit of four hexadecimal digits at the start of `t`. */
  function ReadHex4(t: string): (r: Option<int>)
    ensures r.Some? ==> |t| >= 4 && 0 <= r.value < 0x10000
  {
    if |t| < 4 then None
    else
      var a, b, c, d := HexValue(t[0]), HexValue(t[1]), HexValue(t[2]), HexValue(t[3]);
      if a < 0 || b < 0 || c < 0 || d < 0 then None else Some(((a * 16 + b) * 16 + c) * 16 + d)
  }

  /** A `\u` escape after its first two characters: one code unit, or a surrogate pair for one character. */
  function ReadUEscape(t: string): (r: Option<(char, string)>)
    ensures r.Some? ==> |r.value.1| < |t|
  {
    match ReadHex4(t)
    case None => None
    case Some(u) =>
      if u < 0xD800 || u >= 0xE000 then Some((u as char, t[4..]))
      else if u < 0xDC00 && |t| >= 10 && t[4] == '\\' && t[5] == 'u' then
        match ReadHex4(t[6..])
        case None => None
        case Some(low) =>
          if 0xDC00 <= low < 0xE000 then
            Some(((0x10000 + (u - 0xD800) * 0x400 + (low - 0xDC00)) as char, t[10..]))
          else None
      else None
  }

  /** An escape after the backslash. */
  function ReadEscape(t: string): (r: Option<(char, string)>)
    ensures r.Some? ==> |r.value.1| < |t|
  {
    if |t| == 0 then None
    else if t[0] == '"' || t[0] == '\\' || t[0] == '/' then Some((t[0], t[1..]))
    else if t[0] == 'b' then Some((8 as char, t[1..]))
    else if t[0] == 'f' then Some((12 as char, t[1..]))
    else if t[0] == 'n' then Some(('\n', t[1..]))
    else if t[0] == 'r' then Some(('\r', t[1..]))
    else if t[0] == 't' then Some(('\t', t[1..]))
    else if t[0] == 'u' then ReadUEscape(t[1..])
    else None
  }

  /** One character of a string. */
  function ReadChar(t: string): (r: Option<(char, string)>)
    ensures r.Some? ==> |r.value.1| < |t|
  {
    if |t| == 0 || t[0] == '"' || t[0] as int < 0x20 then None
    else if t[0] == '\\' then ReadEscape(t[1..])
    else Some((t[0], t[1..]))
  }

  /** The characters of a string up to and with the closing quotation mark. */
  function ReadChars(t: string): (r: Option<(string, string)>)
    ensures r.Some? ==> |r.value.1| < |t|
  {
    if |t| > 0 && t[0] == '"' then Some(("", t[1..]))
    else
      match ReadChar(t)
      case None => None
      case Some((c, t1)) =>
        match ReadChars(t1)
        case None => None
        case Some((s, t2)) => Some(([c] + s, t2))
  }

  // ---------- Sections 3, 4 and 5: values, objects and arrays ----------

  function ReadLiteral(t: string, word: string, v: Json): (r: Option<(Json, string)>)
    requires |word| > 0
    ensures r.Some? ==> |r.value.1| < |t|
  {
    if word <= t then Some((v, t[|word|..])) else None
  }

  /** A value at the start of `t`, and what follows it. */
  function ReadValue(t: string): (r: Option<(Json, string)>)
    ensures r.Some? ==> |r.value.1| < |t|
    decreases |t|, 1
  {
    if |t| == 0 then None
    else if t[0] == 'n' then ReadLiteral(t, "null", JNull)
    else if t[0] == 't' then ReadLiteral(t, "true", JBool(true))
    else if t[0] == 'f' then ReadLiteral(t, "false", JBool(false))
    else if t[0] == '"' then
      match ReadChars(t[1..])
      case None => None
      case Some((s, t1)) => Some((JString(s), t1))
    else if t[0] == '[' then
      var t1 := Skip(t[1..]);
      if |t1| > 0 && t1[0] == ']' then Some((JArray([]), t1[1..]))
      else
        match ReadElements(t1)
        case None => None
        case Some((items, t2)) => Some((JArray(items), t2))
    else if t[0] == '{' then
      var t1 := Skip(t[1..]);
      if |t1| > 0 && t1[0] == '}' then Some((JObject([]), t1[1..]))
      else
        match ReadMembers(t1)
        case None => None
        case Some((members, t2)) => Some((JObject(members), t2))
    else ReadNumber(t)
  }

  /** One or more values separated by commas, and the closing bracket. */
  function ReadElements(t: string): (r: Option<(seq<Json>, string)>)
    ensures r.Some? ==> |r.value.1| < |t|
    decreases |t|, 2
  {
    match ReadValue(t)
    case None => None
    case Some((v, t1)) =>
      var t2 := Skip(t1);
      if |t2| > 0 && t2[0] == ']' then Some(([v], t2[1..]))
      else if |t2| > 0 && t2[0] == ',' then
        match ReadElements(Skip(t2[1..]))
        case None => None
        case Some((items, t3)) => Some(([v] + items, t3))
      else None
  }

  /** A member: a name, a colon and a value. */
  function ReadMember(t: string): (r: Option<((string, Json), string)>)
    ensures r.Some? ==> |r.value.1| < |t|
    decreases |t|, 2
  {
    if |t| == 0 || t[0] != '"' then None
    else
      match ReadChars(t[1..])
      case None => None
      case Some((name, t1)) =>
        var t2 := Skip(t1);
        if |t2| == 0 || t2[0] != ':' then None
        else
          match ReadValue(Skip(t2[1..]))
          case None => None
          case Some((v, t3)) => Some(((name, v), t3))
  }

  /** One or more members separated by commas, and the closing brace. */
  function ReadMembers(t: string): (r: Option<(seq<(string, Json)>, string)>)
    ensures r.Some? ==> |r.value.1| < |t|
    decreases |t|, 3
  {
    match ReadMember(t)
    case None => None
    case Some((m, t1)) =>
      var t2 := Skip(t1);
      if |t2| > 0 && t2[0] == '}' then Some(([m], t2[1..]))
      else if |t2| > 0 && t2[0] == ',' then
        match ReadMembers(Skip(t2[1..]))
        case None => None
        case Some((members, t3)) => Some(([m] + members, t3))
      else None
  }

  /** A whole text: white space, one value, white space. */
  function ReadText(t: string): Option<Json> {
    match ReadValue(Skip(t))
    case None => None
    case Some((v, t1)) => if Skip(t1) == "" then Some(v) else None
  }
}
