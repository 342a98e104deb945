/** The configuration parser of mocktracer/src/tracer_factory.cpp. */
module Config {
  import opened Wrappers

  /** Position in the configuration and message of an `InvalidConfigurationError`. */
  datatype InvalidConfiguration = InvalidConfiguration(position: nat, message: string)

  // ---------- The language ----------

  /** Space, horizontal and vertical tab, line feed, form feed and carriage return. */
  predicate Blank(c: char) {
    c == ' ' || c == '\t' || c as int == 11 || c == '\n' || c as int == 12 || c == '\r'
  }

  predicate AllSpace(s: string) {
    forall i :: 0 <= i < |s| ==> Blank(s[i])
  }

  /** ASCII without control characters, the quotation mark (34) and the backslash (92). */
  predicate IsFilename(s: string) {
    forall i :: 0 <= i < |s| ==> 32 <= s[i] as int < 127 && s[i] as int != 34 && s[i] as int != 92
  }

  const OUTPUT_FILE := "\"output_file\""

  /** A configuration with white space before each token and at the end. */
  function Render(a: string, b: string, c: string, d: string, name: string, e: string, f: string): string {
    a + ("{" + (b + ("\"output_file\"" + (c + (":" + (d + ("\"" + (name + ("\"" + (e + ("}" + f)))))))))))
  }

  ghost predicate IsConfiguration(text: string, name: string) {
    IsFilename(name) &&
    exists a, b, c, d, e, f ::
      AllSpace(a) && AllSpace(b) && AllSpace(c) && AllSpace(d) && AllSpace(e) && AllSpace(f) &&
      text == Render(a, b, c, d, name, e, f)
  }

  // ---------- A parser on values ----------

  /** `isspace` and `isprint` in the C locale. */
  predicate IsSpace(c: char) {
    c == ' ' || 9 <= c as int <= 13
  }

  predicate IsPrint(c: char) {
    ' ' <= c <= '~'
  }

  predicate IsFilenameChar(c: char) {
    IsPrint(c) && c != '"' && c != '\\'
  }

  lemma SpaceIsBlank(c: char)
    ensures IsSpace(c) <==> Blank(c)
  {
    var n := c as int;
    assert '\t' as int == 9 && '\n' as int == 10 && '\r' as int == 13;
    if 9 <= n <= 13 {
      assert n == 9 || n == 10 || n == 11 || n == 12 || n == 13;
    }
  }

  function DropSpace(t: string): (r: string)
    ensures |r| <= |t|
  {
    if |t| > 0 && IsSpace(t[0]) then DropSpace(t[1..]) else t
  }

  /** What follows a token and the white space before it. */
  function AfterToken(t: string, token: string): (r: Option<string>)
    ensures r.Some? ==> |r.value| + |token| <= |t|
  {
    var u := DropSpace(t);
    if token <= u then Some(u[|token|..]) else None
  }

  /** A filename up to its closing quotation mark, and what follows. */
  function AfterFilename(t: string): (r: Option<(string, string)>)
    ensures r.Some? ==> |r.value.0| + |r.value.1| < |t|
  {
    if |t| == 0 then None
    else if t[0] == '"' then Some(("", t[1..]))
    else if !IsFilenameChar(t[0]) then None
    else
      match AfterFilename(t[1..])
      case None => None
      case Some((name, rest)) => Some(([t[0]] + name, rest))
  }

  /** How many characters from the start can be in a filename. */
  function FilenameStop(t: string): (n: nat)
    ensures n <= |t| && IsFilename(t[..n]) && (n < |t| ==> !IsFilenameChar(t[n]))
  {
    if |t| > 0 && IsFilenameChar(t[0]) then 1 + FilenameStop(t[1..]) else 0
  }

  /** What follows the name, when only the end of a configuration may. */
  predicate IsEnd(t: string) {
    var r := AfterToken(t, "}");
    r.Some? && DropSpace(r.value) == ""
  }

  function Parsed(t: string): Option<string> {
    var t1 := AfterToken(t, "{");
    if t1.None? then None
    else
      var t2 := AfterToken(t1.value, OUTPUT_FILE);
      if t2.None? then None
      else
        var t3 := AfterToken(t2.value, ":");
        if t3.None? then None
        else
          var t4 := AfterToken(t3.value, "\"");
          if t4.None? then None
          else
            var named := AfterFilename(t4.value);
            if named.None? || !IsEnd(named.value.1) then None else Some(named.value.0)
  }

  // ---------- Errors ----------

  /** The error of a token that does not come first in `rest`, which is the end of `text`. */
  function TokenError(text: string, rest: string, token: string): InvalidConfiguration
    requires |rest| <= |text|
  {
    var p := |text| - |rest|;
    if |rest| < |token| then InvalidConfiguration(p, "expected " + token)
    else
      var k := Agreement(token, rest);
      InvalidConfiguration(p + k + 1, "expected " + token[k..])
  }

  function FilenameError(text: string, rest: string): InvalidConfiguration
    requires |rest| <= |text|
  {
    var p := |text| - |rest| + FilenameStop(rest);
    InvalidConfiguration(p,
      if p == |text| then "no matching \""
      else if text[p] == '\\' then "escaped characters are not supported in filename"
      else "invalid character")
  }

  /** The error of a text that is no configuration. */
  function ParseError(text: string): InvalidConfiguration
    requires Parsed(text).None?
  {
    var t1 := AfterToken(text, "{");
    if t1.None? then TokenError(text, DropSpace(text), "{")
    else
      var t2 := AfterToken(t1.value, OUTPUT_FILE);
      if t2.None? then TokenError(text, DropSpace(t1.value), OUTPUT_FILE)
      else
        var t3 := AfterToken(t2.value, ":");
        if t3.None? then TokenError(text, DropSpace(t2.value), ":")
        else
          var t4 := AfterToken(t3.value, "\"");
          if t4.None? then TokenError(text, DropSpace(t3.value), "\"")
          else
            var named := AfterFilename(t4.value);
            if named.None? then FilenameError(text, t4.value)
            else
              var t5 := AfterToken(named.value.1, "}");
              if t5.None? then TokenError(text, DropSpace(named.value.1), "}")
              else InvalidConfiguration(|text| - |DropSpace(t5.value)|, "expected EOF")
  }

  // ---------- The parser ----------

  /** How many characters `s` and `t` have in common from the start. */
  function Agreement(s: string, t: string): (n: nat)
    ensures n <= |s| && n <= |t| && s[..n] == t[..n]
    ensures n < |s| && n < |t| ==> s[n] != t[n]
  {
    if |s| > 0 && |t| > 0 && s[0] == t[0] then 1 + Agreement(s[1..], t[1..]) else 0
  }

  method Consume(text: string, i: nat, s: string) returns (r: Result<nat, InvalidConfiguration>)
    requires i <= |text|
    ensures r.Ok? <==> s <= text[i..]
    ensures r.Ok? ==> r.value == i + |s|
    ensures |text| - i < |s| ==> r == Err(InvalidConfiguration(i, "expected " + s))
    ensures |text| - i >= |s| && r.Err? ==>
      var k := Agreement(s, text[i..]);
      r == Err(InvalidConfiguration(i + k + 1, "expected " + s[k..]))
    ensures r.Err? ==> i <= r.error.position <= |text|
  {
    if |text| - i < |s| {
      return Err(InvalidConfiguration(i, "expected " + s));
    }
    var j := i;
    ghost var more, left := s, text[i..];
    for index := 0 to |s|
      invariant j == i + index && more == s[index..] && left == text[j..]
      invariant Agreement(s, text[i..]) == index + Agreement(more, left)
    {
      j := j + 1;
      if text[j - 1] != s[index] {
        NotPrefix(s, text[i..]);
        return Err(InvalidConfiguration(j, "expected " + s[index..]));
      }
      more, left := more[1..], left[1..];
    }
    assert s[..|s|] == s;
    return Ok(j);
  }

  lemma NotPrefix(s: string, t: string)
    requires Agreement(s, t) < |s|
    ensures !(s <= t)
  {
  }

  method ConsumeWhitespace(text: string, i: nat) returns (i': nat)
    requires i <= |text|
    ensures i <= i' <= |text| && text[i'..] == DropSpace(text[i..])
  {
    i' := i;
    while i' != |text|
      invariant i <= i' <= |text|
      invariant DropSpace(text[i'..]) == DropSpace(text[i..])
    {
      if !IsSpace(text[i']) {
        return;
      }
      assert text[i'..][1..] == text[i' + 1..];
      i' := i' + 1;
    }
  }

  method ConsumeToken(text: string, i: nat, token: string) returns (r: Result<nat, InvalidConfiguration>)
    requires i <= |text|
    ensures var t := AfterToken(text[i..], token);
      if t.Some? then r.Ok? && i <= r.value <= |text| && text[r.value..] == t.value
      else r == Err(TokenError(text, DropSpace(text[i..]), token)) && i <= r.error.position <= |text|
  {
    var i' := ConsumeWhitespace(text, i);
    r := Consume(text, i', token);
    if r.Ok? {
      assert text[i'..][|token|..] == text[r.value..];
    }
  }

  method ParseFilename(text: string, i: nat) returns (i': nat, r: Result<string, InvalidConfiguration>)
    requires i <= |text|
    ensures var start := AfterToken(text[i..], "\"");
      var named := if start.None? then None else AfterFilename(start.value);
      if named.Some? then r == Ok(named.value.0) && i <= i' <= |text| && text[i'..] == named.value.1
      else
        i <= |text| && r.Err? && r.error.position <= |text| &&
        r.error ==
          if start.None? then TokenError(text, DropSpace(text[i..]), "\"") else FilenameError(text, start.value)
  {
    hide AfterToken, DropSpace, IsPrint, IsFilename, AfterFilename, FilenameStop;
    var start := ConsumeToken(text, i, "\"");
    if start.Err? {
      return i, Err(start.error);
    }
    i' := start.value;
    ghost var left := text[i'..];
    ghost var named, stop := AfterFilename(left), i' + FilenameStop(left);
    var result := "";
    assert named.Some? ==> result + named.value.0 == named.value.0;
    while i' != |text|
      invariant start.value <= i' <= |text| && left == text[i'..]
      invariant named == Prepended(result, AfterFilename(left)) && stop == i' + FilenameStop(left)
    {
      FilenameStep(left);
      if text[i'] == '"' {
        assert result + "" == result;
        return i' + 1, Ok(result);
      }
      if text[i'] == '\\' {
        return i', Err(InvalidConfiguration(i', "escaped characters are not supported in filename"));
      }
      if IsPrint(text[i']) {
        PrependedTwice(result, text[i'], AfterFilename(left[1..]));
        result := result + [text[i']];
      } else {
        return i', Err(InvalidConfiguration(i', "invalid character"));
      }
      i', left := i' + 1, left[1..];
    }
    FilenameEnd(left);
    return i', Err(InvalidConfiguration(i', "no matching \""));
  }

  lemma FilenameStep(t: string)
    requires |t| > 0
    ensures AfterFilename(t) ==
      if t[0] == '"' then Some(("", t[1..]))
      else if IsFilenameChar(t[0]) then Prepended([t[0]], AfterFilename(t[1..]))
      else None
    ensures FilenameStop(t) == if IsFilenameChar(t[0]) then 1 + FilenameStop(t[1..]) else 0
  {
  }

  lemma FilenameEnd(t: string)
    requires |t| == 0
    ensures AfterFilename(t) == None && FilenameStop(t) == 0
  {
  }

  function Prepended(s: string, named: Option<(string, string)>): Option<(string, string)> {
    if named.None? then None else Some((s + named.value.0, named.value.1))
  }

  lemma PrependedTwice(s: string, c: char, named: Option<(string, string)>)
    ensures Prepended(s, Prepended([c], named)) == Prepended(s + [c], named)
  {
    assert named.Some? ==> s + ([c] + named.value.0) == (s + [c]) + named.value.0;
  }

  /** Accepts what `Parsed` does and reports `ParseError` otherwise, whose position lies within the configuration. */
  method ParseConfiguration(text: string) returns (r: Result<string, InvalidConfiguration>)
    ensures Parsed(text) == if r.Ok? then Some(r.value) else None
    ensures r.Err? ==> r.error == ParseError(text) && r.error.position <= |text|
  {
    hide AfterToken, AfterFilename, DropSpace, TokenError, FilenameError;
    assert text[0..] == text;
    var i1 := ConsumeToken(text, 0, "{");
    if i1.Err? { return Err(i1.error); }
    var i2 := ConsumeToken(text, i1.value, OUTPUT_FILE);
    if i2.Err? { return Err(i2.error); }
    var i3 := ConsumeToken(text, i2.value, ":");
    if i3.Err? { return Err(i3.error); }
    var i, filename := ParseFilename(text, i3.value);
    if filename.Err? { return Err(filename.error); }
    var i4 := ConsumeToken(text, i, "}");
    if i4.Err? { return Err(i4.error); }
    i := ConsumeWhitespace(text, i4.value);
    if i != |text| {
      return Err(InvalidConfiguration(i, "expected EOF"));
    }
    r := filename;
  }

  // ---------- The parser accepts exactly the language ----------

  lemma SpacesAreBlank()
    ensures forall c :: IsSpace(c) <==> Blank(c)
  {
    forall c ensures IsSpace(c) <==> Blank(c) {
      SpaceIsBlank(c);
    }
  }

  function TakeSpace(t: string): (ws: string)
    ensures AllSpace(ws) && ws + DropSpace(t) == t
  {
    if |t| > 0 && IsSpace(t[0]) then
      SpaceIsBlank(t[0]);
      [t[0]] + TakeSpace(t[1..])
    else ""
  }

  lemma {:induction false} DropAllSpace(ws: string, t: string)
    requires AllSpace(ws) && (|t| > 0 ==> !Blank(t[0]))
    ensures DropSpace(ws + t) == t
  {
    SpacesAreBlank();
    if |ws| == 0 {
      assert ws + t == t;
    } else {
      assert (ws + t)[1..] == ws[1..] + t;
      DropAllSpace(ws[1..], t);
    }
  }

  lemma TokenAccepted(ws: string, token: string, rest: string)
    requires AllSpace(ws) && |token| > 0 && !Blank(token[0])
    ensures AfterToken(ws + (token + rest), token) == Some(rest)
  {
    DropAllSpace(ws, token + rest);
    assert (token + rest)[..|token|] == token && (token + rest)[|token|..] == rest;
  }

  lemma TokenRead(t: string, token: string)
    requires AfterToken(t, token).Some?
    ensures t == TakeSpace(t) + (token + AfterToken(t, token).value)
  {
    var u := DropSpace(t);
    assert u == token + u[|token|..];
  }

  lemma {:induction false} FilenameAccepted(name: string, rest: string)
    requires IsFilename(name)
    ensures AfterFilename(name + ("\"" + rest)) == Some((name, rest))
  {
    if |name| == 0 {
      assert name + ("\"" + rest) == "\"" + rest && ("\"" + rest)[1..] == rest;
    } else {
      assert (name + ("\"" + rest))[1..] == name[1..] + ("\"" + rest);
      FilenameAccepted(name[1..], rest);
      assert name == [name[0]] + name[1..];
    }
  }

  lemma {:induction false} FilenameRead(t: string)
    requires AfterFilename(t).Some?
    ensures var (name, rest) := AfterFilename(t).value; IsFilename(name) && t == name + ("\"" + rest)
  {
    if t[0] != '"' {
      FilenameRead(t[1..]);
      assert t == [t[0]] + t[1..];
    }
  }

  lemma EndAccepted(ws: string, end: string)
    requires AllSpace(ws) && AllSpace(end)
    ensures IsEnd(ws + ("}" + end))
  {
    TokenAccepted(ws, "}", end);
    DropAllSpace(end, "");
    assert end + "" == end;
  }

  lemma Accepted(a: string, b: string, c: string, d: string, name: string, e: string, f: string)
    requires AllSpace(a) && AllSpace(b) && AllSpace(c) && AllSpace(d) && AllSpace(e) && AllSpace(f) && IsFilename(name)
    ensures Parsed(Render(a, b, c, d, name, e, f)) == Some(name)
  {
    hide AfterToken, AfterFilename, IsEnd, AllSpace, IsFilename;
    var end := e + ("}" + f);
    var t4 := name + ("\"" + end);
    var t3 := d + ("\"" + t4);
    var t2 := c + (":" + t3);
    var t1 := b + (OUTPUT_FILE + t2);
    TokenAccepted(a, "{", t1);
    TokenAccepted(b, OUTPUT_FILE, t2);
    TokenAccepted(c, ":", t3);
    TokenAccepted(d, "\"", t4);
    FilenameAccepted(name, end);
    EndAccepted(e, f);
  }

  lemma Read(text: string)
    requires Parsed(text).Some?
    ensures IsConfiguration(text, Parsed(text).value)
  {
    var t1 := AfterToken(text, "{").value;
    var t2 := AfterToken(t1, OUTPUT_FILE).value;
    var t3 := AfterToken(t2, ":").value;
    var t4 := AfterToken(t3, "\"").value;
    var (name, t5) := AfterFilename(t4).value;
    ReadParts(text, t1, t2, t3, t4, name, t5);
    hide *;
  }

  lemma ReadParts(text: string, t1: string, t2: string, t3: string, t4: string, name: string, t5: string)
    requires AfterToken(text, "{") == Some(t1) && AfterToken(t1, OUTPUT_FILE) == Some(t2)
    requires AfterToken(t2, ":") == Some(t3) && AfterToken(t3, "\"") == Some(t4)
    requires AfterFilename(t4) == Some((name, t5)) && IsEnd(t5)
    ensures IsConfiguration(text, name)
  {
    hide AfterToken, AfterFilename, AllSpace, IsFilename, DropSpace;
    var t6 := AfterToken(t5, "}").value;
    TokenRead(text, "{");
    TokenRead(t1, OUTPUT_FILE);
    TokenRead(t2, ":");
    TokenRead(t3, "\"");
    FilenameRead(t4);
    TokenRead(t5, "}");
    assert TakeSpace(t6) == t6 by { assert TakeSpace(t6) + "" == TakeSpace(t6); }
    assert text ==
      Render(TakeSpace(text), TakeSpace(t1), TakeSpace(t2), TakeSpace(t3), name, TakeSpace(t5), t6);
  }

  /** The parser accepts exactly the language, and returns the filename written there. */
  lemma ParsedExactly(text: string, name: string)
    ensures Parsed(text) == Some(name) <==> IsConfiguration(text, name)
  {
    hide Parsed, Render, AllSpace, IsFilename;
    if IsConfiguration(text, name) {
      var a, b, c, d, e, f :|
        AllSpace(a) && AllSpace(b) && AllSpace(c) && AllSpace(d) && AllSpace(e) && AllSpace(f) &&
        text == Render(a, b, c, d, name, e, f);
      Accepted(a, b, c, d, name, e, f);
    }
    if Parsed(text) == Some(name) {
      Read(text);
    }
  }

  // ---------- What an error says ----------

  /** The tokens in order. */
  function Token(stage: int): string
    requires 0 <= stage < 5
  {
    ["{", OUTPUT_FILE, ":", "\"", "}"][stage]
  }

  /** A configuration up to a token, with `rest` in place of it. */
  function UpTo(stage: int, a: string, b: string, c: string, d: string, name: string, rest: string): string
    requires 0 <= stage < 5
  {
    if stage == 0 then rest
    else if stage == 1 then a + ("{" + rest)
    else if stage == 2 then a + ("{" + (b + (OUTPUT_FILE + rest)))
    else if stage == 3 then a + ("{" + (b + (OUTPUT_FILE + (c + (":" + rest)))))
    else a + ("{" + (b + (OUTPUT_FILE + (c + (":" + (d + ("\"" + (name + ("\"" + rest)))))))))
  }

  lemma NotTaken(ws: string, rest: string, token: string)
    requires AllSpace(ws) && (|rest| > 0 ==> !Blank(rest[0])) && !(token <= rest)
    ensures AfterToken(ws + rest, token).None? && DropSpace(ws + rest) == rest
  {
    DropAllSpace(ws, rest);
  }

  /**
    Where a token is missing, the error is at the first character that is neither
    white space nor part of it: at the token's place when too little text is left, and
    otherwise one past the first difference, with what was still expected.
   */
  lemma MissingToken(
      stage: int, a: string, b: string, c: string, d: string, name: string, ws: string, rest: string)
    requires 0 <= stage < 5 && AllSpace(a) && AllSpace(b) && AllSpace(c) && AllSpace(d) && IsFilename(name)
    requires AllSpace(ws) && (|rest| > 0 ==> !Blank(rest[0])) && !(Token(stage) <= rest)
    ensures var text := UpTo(stage, a, b, c, d, name, ws + rest); var token := Token(stage);
      var p := |text| - |rest|;
      Parsed(text).None? &&
      (|rest| < |token| ==> ParseError(text) == InvalidConfiguration(p, "expected " + token)) &&
      forall k :: 0 <= k < |token| <= |rest| && DiffersAt(token, rest, k) ==>
        ParseError(text) == InvalidConfiguration(p + k + 1, "expected " + token[k..])
  {
    hide AfterToken, AfterFilename, DropSpace, AllSpace, IsFilename, Blank;
    var token := Token(stage);
    NotTaken(ws, rest, token);
    forall k | 0 <= k < |token| <= |rest| && DiffersAt(token, rest, k) ensures Agreement(token, rest) == k {
      AgreementIs(token, rest, k);
    }
    var t := ws + rest;
    Accepts(stage, a, b, c, d, name, t);
  }

  /** The texts agree on `k` characters and differ in the next. */
  predicate DiffersAt(s: string, t: string, k: nat) {
    k < |s| && k < |t| && s[..k] == t[..k] && s[k] != t[k]
  }

  lemma {:induction false} AgreementIs(s: string, t: string, k: nat)
    requires DiffersAt(s, t, k)
    ensures Agreement(s, t) == k
    decreases k
  {
    if k > 0 {
      assert s[..k][0] == t[..k][0];
      assert s[1..][..k - 1] == s[..k][1..] && t[1..][..k - 1] == t[..k][1..];
      AgreementIs(s[1..], t[1..], k - 1);
    }
  }

  /** The tokens before the stage are taken. */
  lemma Accepts(stage: int, a: string, b: string, c: string, d: string, name: string, t: string)
    requires 0 <= stage < 5 && AllSpace(a) && AllSpace(b) && AllSpace(c) && AllSpace(d) && IsFilename(name)
    requires AfterToken(t, Token(stage)).None?
    ensures var text := UpTo(stage, a, b, c, d, name, t);
      Parsed(text).None? && |DropSpace(t)| <= |t| <= |text| &&
      ParseError(text) == TokenError(text, DropSpace(t), Token(stage))
  {
    hide AfterToken, AfterFilename, DropSpace, AllSpace, IsFilename, TokenError;
    var t4 := name + ("\"" + t);
    var t3 := if stage == 3 then t else d + ("\"" + t4);
    var t2 := if stage == 2 then t else c + (":" + t3);
    var t1 := if stage == 1 then t else b + (OUTPUT_FILE + t2);
    TokenAccepted(a, "{", t1);
    TokenAccepted(b, OUTPUT_FILE, t2);
    TokenAccepted(c, ":", t3);
    TokenAccepted(d, "\"", t4);
    FilenameAccepted(name, t);
  }

  /** Text after a configuration is reported where it starts. */
  lemma TrailingText(a: string, b: string, c: string, d: string, name: string, e: string, f: string, more: string)
    requires AllSpace(a) && AllSpace(b) && AllSpace(c) && AllSpace(d) && AllSpace(e) && AllSpace(f) && IsFilename(name)
    requires |more| > 0 && !Blank(more[0])
    ensures var text := Render(a, b, c, d, name, e, f + more);
      Parsed(text).None? && ParseError(text) == InvalidConfiguration(|text| - |more|, "expected EOF")
  {
    hide AfterToken, AfterFilename, DropSpace, AllSpace, IsFilename;
    var t5 := e + ("}" + (f + more));
    var t4 := name + ("\"" + t5);
    var t3 := d + ("\"" + t4);
    var t2 := c + (":" + t3);
    var t1 := b + (OUTPUT_FILE + t2);
    TokenAccepted(a, "{", t1);
    TokenAccepted(b, OUTPUT_FILE, t2);
    TokenAccepted(c, ":", t3);
    TokenAccepted(d, "\"", t4);
    FilenameAccepted(name, t5);
    TokenAccepted(e, "}", f + more);
    DropAllSpace(f, more);
  }

  /** A name that does not end in a quotation mark is reported where it stops, and why. */
  lemma UnendedFilename(a: string, b: string, c: string, d: string, name: string, rest: string)
    requires AllSpace(a) && AllSpace(b) && AllSpace(c) && AllSpace(d) && IsFilename(name)
    requires |rest| > 0 ==> rest[0] != '"' && !IsFilename(rest[..1])
    ensures var text := a + ("{" + (b + (OUTPUT_FILE + (c + (":" + (d + ("\"" + (name + rest))))))));
      var p := |text| - |rest|;
      Parsed(text).None? &&
      ParseError(text) == InvalidConfiguration(p,
        if rest == "" then "no matching \""
        else if rest[0] as int == 92 then "escaped characters are not supported in filename"
        else "invalid character")
  {
    hide AfterToken, AfterFilename, DropSpace, AllSpace, FilenameStop;
    var t4 := name + rest;
    var t3 := d + ("\"" + t4);
    var t2 := c + (":" + t3);
    var t1 := b + (OUTPUT_FILE + t2);
    TokenAccepted(a, "{", t1);
    TokenAccepted(b, OUTPUT_FILE, t2);
    TokenAccepted(c, ":", t3);
    TokenAccepted(d, "\"", t4);
    NameStops(name, rest);
    var text := a + ("{" + t1);
    LastOf(a, "{", t1, rest);
    LastOf(b, OUTPUT_FILE, t2, rest);
    LastOf(c, ":", t3, rest);
    LastOf(d, "\"", t4, rest);
    assert t4[|name|..] == rest;
  }

  /** The end of a text that follows a token is the end of the whole. */
  lemma LastOf(ws: string, token: string, t: string, rest: string)
    requires |rest| <= |t|
    ensures var text := ws + (token + t);
      |rest| <= |text| && text[|text| - |rest|..] == t[|t| - |rest|..]
  {
    var text := ws + (token + t);
    assert text[|ws| + |token|..] == t;
    assert text[|text| - |rest|..] == text[|ws| + |token|..][|t| - |rest|..];
  }

  lemma {:induction false} NameStops(name: string, rest: string)
    requires IsFilename(name)
    requires |rest| > 0 ==> rest[0] != '"' && !IsFilename(rest[..1])
    ensures AfterFilename(name + rest) == None && FilenameStop(name + rest) == |name|
  {
    if |name| == 0 {
      assert name + rest == rest;
      if |rest| > 0 {
        assert rest[..1][0] == rest[0];
      }
    } else {
      assert (name + rest)[1..] == name[1..] + rest;
      NameStops(name[1..], rest);
    }
  }
}
