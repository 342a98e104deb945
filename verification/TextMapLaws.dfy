/** Laws of the text carriers: the end-to-end round trip and the two ways of finding the key. */
module TextMapLaws {
  import opened Wrappers
  import opened Errors
  import opened Bytes
  import opened SpanData
  import opened TextMap
  import Base64
  import Streams
  import Wire
  import WireLaws

  // ---------- One value ----------

  /**
    The length of a context's text, as 32 bits, makes the decoder ask for a
    negative size. A caller can compute it from the encoding's length.
   */
  predicate TextTooLong(e: Endian, c: SpanContextData) {
    var n := |Wire.Encoding(e, c)|;
    var low := (n + 2) / 3 * 4 % 0x1_0000_0000;
    low >= 0x8000_0000 || (low == 0 && n % 3 != 0)
  }

  lemma DecodingOfContextText(e: Endian, c: SpanContextData)
    ensures Base64.Decoding(ToOctets(ContextText(e, c))) ==
      if TextTooLong(e, c) then Base64.LengthError else Base64.Decoded(ToOctets(Wire.Encoding(e, c)))
  {
    var binary := ToOctets(Wire.Encoding(e, c));
    assert binary != [] by { NotEmpty(e, c); }
    ToFromOctets(Base64.Encoding(binary));
    Base64.ReserveThrows(binary);
    Base64.DecodeOfEncoding(binary);
    Base64.EncodingLength(binary);
    hide Wire.Encoding, ToOctets, FromOctets, Base64.Encoding, Base64.DecodeGroups, Base64.ReservedSize;
  }

  lemma NotEmpty(e: Endian, c: SpanContextData)
    ensures |Wire.Encoding(e, c)| >= 20
  {
  }

  /** What extraction on any host makes of a context's text, for every context. */
  lemma FromContextText(e1: Endian, e2: Endian, c: SpanContextData)
    ensures FromText(e2, ContextText(e1, c), EMPTY_CONTEXT) ==
      if TextTooLong(e1, c) then Extracted(EMPTY_CONTEXT, LengthErrorThrown)
      else
        var x := Wire.Extraction(e2, Streams.Fresh(Wire.Encoding(e1, c)), EMPTY_CONTEXT);
        Extracted(x.data, Returned(x.result))
  {
    hide Wire.Extraction, Wire.Encoding, ToOctets, FromOctets, TextTooLong, ContextText;
    NotEmpty(e1, c);
    FromToOctets(Wire.Encoding(e1, c));
    DecodingOfContextText(e1, c);
  }

  // ---------- Carriers that hold a value ----------

  /** Some entry matches the key, and every entry that does has this value. */
  ghost predicate Carries(entries: seq<Entry>, key: ByteString, compare: Compare, text: ByteString) {
    (exists i: nat :: Matches(entries, i, key, compare)) &&
    forall i: nat :: Matches(entries, i, key, compare) ==> entries[i].1 == text
  }

  lemma CarriedIsFound(entries: seq<Entry>, key: ByteString, compare: Compare, text: ByteString)
    requires Carries(entries, key, compare, text)
    ensures FirstMatch(entries, key, compare) == Some(text)
  {
    FirstMatchIsFirst(entries, key, compare);
    var i: nat :| Matches(entries, i, key, compare);
    var k := i;
    while exists j: nat :: j < k && Matches(entries, j, key, compare)
      invariant Matches(entries, k, key, compare)
      decreases k
    {
      var j: nat :| j < k && Matches(entries, j, key, compare);
      k := j;
    }
    assert MatchesFirst(entries, k, key, compare);
  }

  /** After `Set`, the entries carry the value, provided no other key matches. */
  lemma {:induction false} SetCarries(entries: seq<Entry>, key: ByteString, compare: Compare, text: ByteString)
    requires compare(key, key)
    requires forall i: nat :: Matches(entries, i, key, compare) ==> entries[i].0 == key
    requires forall i, j :: 0 <= i < j < |entries| ==> entries[i].0 != entries[j].0
    ensures Carries(WithEntry(entries, key, text), key, compare, text)
  {
    var r := WithEntry(entries, key, text);
    if |entries| == 0 {
      assert Matches(r, 0, key, compare);
    } else if entries[0].0 == key {
      assert Matches(r, 0, key, compare);
      assert forall i: nat :: 0 < i < |r| ==> r[i] == entries[i];
      assert forall i: nat :: i > 0 && Matches(r, i, key, compare) ==> Matches(entries, i, key, compare);
    } else {
      var rest := entries[1..];
      assert forall i: nat :: Matches(rest, i, key, compare) ==> Matches(entries, i + 1, key, compare);
      SetCarries(rest, key, compare, text);
      var i: nat :| Matches(WithEntry(rest, key, text), i, key, compare);
      assert Matches(r, i + 1, key, compare);
      assert !Matches(entries, 0, key, compare);
      assert !Matches(r, 0, key, compare);
      assert forall i: nat :: i > 0 && Matches(r, i, key, compare) ==>
        Matches(WithEntry(rest, key, text), i - 1, key, compare);
    }
  }

  /** Neither the order in which a carrier offers its entries matters... */
  lemma ReorderingCarries(
      entries: seq<Entry>, reordered: seq<Entry>, key: ByteString, compare: Compare, text: ByteString)
    requires Carries(entries, key, compare, text) && multiset(entries) == multiset(reordered)
    ensures Carries(reordered, key, compare, text)
  {
    var i: nat :| Matches(entries, i, key, compare);
    assert entries[i] in multiset(reordered);
    var j: nat :| j < |reordered| && reordered[j] == entries[i];
    assert Matches(reordered, j, key, compare);
    forall k: nat | Matches(reordered, k, key, compare) ensures reordered[k].1 == text {
      assert reordered[k] in multiset(entries);
      var l: nat :| l < |entries| && entries[l] == reordered[k];
      assert Matches(entries, l, key, compare);
    }
  }

  /** The codes of one letter of the ASCII alphabet in upper and in lower case. */
  predicate LetterPair(upper: Byte, lower: Byte) {
    0 <= upper as int - 65 < 26 && lower as int - 97 == upper as int - 65
  }

  /** Equal but for the case of letters. */
  predicate CaseVariant(a: ByteString, b: ByteString) {
    |a| == |b| &&
    forall i :: 0 <= i < |a| ==> a[i] == b[i] || LetterPair(a[i], b[i]) || LetterPair(b[i], a[i])
  }

  lemma SameLower(x: Byte, y: Byte)
    ensures ToLower(x) == ToLower(y) <==> x == y || LetterPair(x, y) || LetterPair(y, x)
  {
  }

  /** The comparison of header names is equality but for the case of letters. */
  lemma IEqualsExactly(a: ByteString, b: ByteString)
    ensures IEquals(a, b) <==> CaseVariant(a, b)
  {
    hide ToLower, LetterPair;
    if |a| == |b| {
      forall i | 0 <= i < |a|
        ensures ToLower(a[i]) == ToLower(b[i]) <==> a[i] == b[i] || LetterPair(a[i], b[i]) || LetterPair(b[i], a[i])
      {
        SameLower(a[i], b[i]);
      }
    }
  }

  /** ...nor, for headers, the case of their names. */
  predicate Recased(entries: seq<Entry>, recased: seq<Entry>) {
    |entries| == |recased| &&
    forall i :: 0 <= i < |entries| ==> CaseVariant(recased[i].0, entries[i].0) && recased[i].1 == entries[i].1
  }

  /** No name but the key itself differs from it in the case of letters only. */
  predicate NoVariant(entries: seq<Entry>, key: ByteString) {
    forall i :: 0 <= i < |entries| && CaseVariant(entries[i].0, key) ==> entries[i].0 == key
  }

  lemma NoVariantMatches(entries: seq<Entry>, key: ByteString)
    requires NoVariant(entries, key)
    ensures forall i: nat :: Matches(entries, i, key, IEquals) ==> entries[i].0 == key
  {
    hide IEquals, CaseVariant;
    forall i: nat | Matches(entries, i, key, IEquals) ensures entries[i].0 == key {
      IEqualsExactly(entries[i].0, key);
    }
  }

  lemma RecasingCarries(entries: seq<Entry>, recased: seq<Entry>, key: ByteString, text: ByteString)
    requires Carries(entries, key, IEquals, text) && Recased(entries, recased)
    ensures Carries(recased, key, IEquals, text)
  {
    hide CaseVariant;
    forall i: nat ensures Matches(recased, i, key, IEquals) == Matches(entries, i, key, IEquals) {
      if i < |entries| {
        IEqualsExactly(recased[i].0, entries[i].0);
      }
    }
  }

  // ---------- The end-to-end round trip ----------

  /**
    Injecting into a carrier and extracting, with either way of finding the key,
    gives the context back exactly when its sizes fit and its text is not too
    long for the decoder.
   */
  lemma TextRoundTrip(e: Endian, key: ByteString, carrier: Reader, compare: Compare, c: SpanContextData)
    requires carrier.lookup(key) == Ok(ContextText(e, c)) ||
      (carrier.lookup(key) == Err(LOOKUP_NOT_SUPPORTED) && Carries(carrier.entries, key, compare, ContextText(e, c)))
    ensures Extraction(e, key, carrier, compare, EMPTY_CONTEXT) == Extracted(c, Returned(Ok(true)))
      <==> Wire.Fits(c) && !TextTooLong(e, c)
  {
    hide ContextText, FromText, Wire.Extraction, Wire.Encoding, Carries, TextTooLong, Wire.Fits;
    if carrier.lookup(key) == Err(LOOKUP_NOT_SUPPORTED) {
      CarriedIsFound(carrier.entries, key, compare, ContextText(e, c));
    }
    FromContextText(e, e, c);
    WireLaws.RoundTripExactly(e, c);
  }

  lemma IEqualsReflexive(key: ByteString)
    ensures IEquals(key, key)
  {
  }

  predicate HasName(entries: seq<Entry>, key: ByteString) {
    exists i :: 0 <= i < |entries| && entries[i].0 == key
  }

  /** The carrier answers `LookupKey` from its entries, by their exact names. */
  predicate AnswersFrom(carrier: Reader, key: ByteString) {
    match carrier.lookup(key)
    case Ok(value) => (key, value) in carrier.entries
    case Err(error) => error == KEY_NOT_FOUND && !HasName(carrier.entries, key)
  }

  /** It has to be scanned, or it has an entry of exactly that name. */
  predicate Findable(carrier: Reader, key: ByteString) {
    carrier.lookup(key) == Err(LOOKUP_NOT_SUPPORTED) || HasName(carrier.entries, key)
  }

  /** What a carrier that answers by exact names comes to, where every matching entry holds the context's text. */
  lemma ByExactName(e: Endian, key: ByteString, carrier: Reader, compare: Compare, c: SpanContextData)
    requires AnswersFrom(carrier, key) && compare(key, key)
    requires forall i: nat :: Matches(carrier.entries, i, key, compare) ==> carrier.entries[i].1 == ContextText(e, c)
    ensures Extraction(e, key, carrier, compare, EMPTY_CONTEXT) == Extracted(c, Returned(Ok(true)))
      <==> HasName(carrier.entries, key) && Wire.Fits(c) && !TextTooLong(e, c)
    ensures !HasName(carrier.entries, key) ==>
      Extraction(e, key, carrier, compare, EMPTY_CONTEXT) == Extracted(EMPTY_CONTEXT, Returned(Ok(false)))
  {
    hide ContextText, FromText, TextTooLong, Wire.Fits;
    var looked := carrier.lookup(key);
    if looked.Ok? {
      var i :| 0 <= i < |carrier.entries| && carrier.entries[i] == (key, looked.value);
      assert Matches(carrier.entries, i, key, compare);
      TextRoundTrip(e, key, carrier, compare, c);
    }
  }

  /**
    The headers a context was put in, in any order and any spelling of the names.
    A carrier that has to be scanned gives it back; one that looks names up finds
    it only under the very name it was put in.
   */
  lemma HttpHeadersRoundTrip(
      e: Endian, key: ByteString, before: seq<Entry>, recased: seq<Entry>, carrier: Reader, c: SpanContextData)
    requires NoVariant(before, key) && forall i, j :: 0 <= i < j < |before| ==> before[i].0 != before[j].0
    requires Recased(WithEntry(before, key, ContextText(e, c)), recased)
    requires multiset(carrier.entries) == multiset(recased)
    requires carrier.lookup(key) == Err(LOOKUP_NOT_SUPPORTED) || AnswersFrom(carrier, key)
    ensures Extraction(e, key, carrier, IEquals, EMPTY_CONTEXT) == Extracted(c, Returned(Ok(true)))
      <==> Wire.Fits(c) && !TextTooLong(e, c) && Findable(carrier, key)
  {
    hide ContextText, Extraction, TextTooLong, Wire.Fits, WithEntry, Matches, Recased, AnswersFrom, HasName, NoVariant;
    var text := ContextText(e, c);
    NoVariantMatches(before, key);
    IEqualsReflexive(key);
    SetCarries(before, key, IEquals, text);
    RecasingCarries(WithEntry(before, key, text), recased, key, text);
    ReorderingCarries(recased, carrier.entries, key, IEquals, text);
    if carrier.lookup(key) == Err(LOOKUP_NOT_SUPPORTED) {
      TextRoundTrip(e, key, carrier, IEquals, c);
    } else {
      ByExactName(e, key, carrier, IEquals, c);
    }
  }

  /** The same for text maps, where both ways of finding the key find it. */
  lemma TextMapRoundTrip(
      e: Endian, key: ByteString, before: seq<Entry>, carrier: Reader, c: SpanContextData)
    requires forall i, j :: 0 <= i < j < |before| ==> before[i].0 != before[j].0
    requires multiset(carrier.entries) == multiset(WithEntry(before, key, ContextText(e, c)))
    requires carrier.lookup(key) == Err(LOOKUP_NOT_SUPPORTED) || AnswersFrom(carrier, key)
    ensures Extraction(e, key, carrier, EqualTo, EMPTY_CONTEXT) == Extracted(c, Returned(Ok(true)))
      <==> Wire.Fits(c) && !TextTooLong(e, c)
  {
    hide ContextText, Extraction, TextTooLong, Wire.Fits, WithEntry, AnswersFrom;
    var text := ContextText(e, c);
    SetCarries(before, key, EqualTo, text);
    ReorderingCarries(WithEntry(before, key, text), carrier.entries, key, EqualTo, text);
    if carrier.lookup(key) == Err(LOOKUP_NOT_SUPPORTED) {
      TextRoundTrip(e, key, carrier, EqualTo, c);
    } else {
      var i: nat :| Matches(carrier.entries, i, key, EqualTo);
      assert HasName(carrier.entries, key);
      ByExactName(e, key, carrier, EqualTo, c);
    }
  }

  // ---------- Fast lookup and scan ----------

  /** The entries of a map, each once or more, in any order. */
  predicate EntriesOf(entries: seq<Entry>, m: map<ByteString, ByteString>) {
    (forall i :: 0 <= i < |entries| ==> entries[i].0 in m && m[entries[i].0] == entries[i].1) &&
    forall k :: k in m ==> (k, m[k]) in entries
  }

  /** One carrier looks keys up in its map, the other can only offer the map's entries. */
  predicate FastAndSlow(key: ByteString, m: map<ByteString, ByteString>, fast: Reader, slow: Reader) {
    fast.lookup(key) == (if key in m then Ok(m[key]) else Err(KEY_NOT_FOUND)) &&
    slow.lookup(key) == Err(LOOKUP_NOT_SUPPORTED) && slow.end == Ok(Unit) && EntriesOf(slow.entries, m)
  }

  lemma MatchOf(m: map<ByteString, ByteString>, entries: seq<Entry>, k: ByteString, key: ByteString, compare: Compare)
    returns (i: nat)
    requires EntriesOf(entries, m) && k in m && compare(k, key)
    ensures Matches(entries, i, key, compare) && entries[i] == (k, m[k])
  {
    i :| 0 <= i < |entries| && entries[i] == (k, m[k]);
  }

  /**
    Exactly when a lookup in the map agrees with the scan, under any comparison. An
    absent key: no other key matches it. A present key that matches itself: whatever
    the order of the scan, all matching keys have its value.
   */
  lemma LookupsAgree(
      key: ByteString, m: map<ByteString, ByteString>, fast: Reader, slow: Reader, compare: Compare)
    requires FastAndSlow(key, m, fast, slow)
    ensures key !in m ==>
      (LookingUp(fast, key, compare) == LookingUp(slow, key, compare) <==> forall k :: k in m ==> !compare(k, key))
    ensures key in m && compare(key, key) && (forall k :: k in m && compare(k, key) ==> m[k] == m[key]) ==>
      LookingUp(fast, key, compare) == LookingUp(slow, key, compare)
    ensures key in m && |slow.entries| > 0 && compare(slow.entries[0].0, key) && slow.entries[0].1 != m[key] ==>
      LookingUp(fast, key, compare) != LookingUp(slow, key, compare)
  {
    FirstMatchIsFirst(slow.entries, key, compare);
    if key !in m {
      if k :| k in m && compare(k, key) {
        var i := MatchOf(m, slow.entries, k, key, compare);
      } else {
        assert forall i: nat :: !Matches(slow.entries, i, key, compare);
      }
    } else if compare(key, key) && forall k :: k in m && compare(k, key) ==> m[k] == m[key] {
      var i := MatchOf(m, slow.entries, key, key, compare);
      CarriedIsFound(slow.entries, key, compare, m[key]);
    }
    hide EntriesOf, Matches;
  }

  /** For text maps, where keys are compared as the map does, they always agree. */
  lemma FastLookupRefinesScan(
      e: Endian, key: ByteString, m: map<ByteString, ByteString>, fast: Reader, slow: Reader, data: SpanContextData)
    requires FastAndSlow(key, m, fast, slow)
    ensures Extraction(e, key, fast, EqualTo, data) == Extraction(e, key, slow, EqualTo, data)
  {
    hide FromText, LookingUp, EntriesOf;
    LookupsAgree(key, m, fast, slow, EqualTo);
  }

  /** A header `K`, looked up by its exact name or offered to a scan. */
  function HeaderK(text: ByteString, fast: bool): Reader {
    Reader(name => if !fast then Err(LOOKUP_NOT_SUPPORTED) else if name == "K" then Ok(text) else Err(KEY_NOT_FOUND),
           [("K", text)], Ok(Unit))
  }

  lemma KMatches(text: ByteString)
    ensures Carries([("K", text)], "k", IEquals, text) && "K" != "k"
  {
    assert "K"[0] != "k"[0];
    assert Matches([("K", text)], 0, "k", IEquals);
  }

  /** For headers they need not: a context under the name `K` is not found by a lookup of `k`, but by a scan. */
  lemma RecasedHeaderMissed(e: Endian)
    ensures var c := SpanContextData(1, 2, map[]); var text := ContextText(e, c);
      Extraction(e, "k", HeaderK(text, true), IEquals, EMPTY_CONTEXT)
        == Extracted(EMPTY_CONTEXT, Returned(Ok(false))) &&
      Extraction(e, "k", HeaderK(text, false), IEquals, EMPTY_CONTEXT) == Extracted(c, Returned(Ok(true)))
  {
    hide ContextText, FromText, FirstMatch, Carries, IEquals, TextTooLong, Wire.Fits;
    var c := SpanContextData(1, 2, map[]);
    var text := ContextText(e, c);
    KMatches(text);
    ShortText(e, c);
    TextRoundTrip(e, "k", HeaderK(text, false), IEquals, c);
  }

  lemma ShortText(e: Endian, c: SpanContextData)
    requires c.baggage == map[]
    ensures Wire.Fits(c) && !TextTooLong(e, c)
  {
    assert |Wire.Encoding(e, c)| == 20;
  }

  // ---------- Errors ----------

  /** An error of the carrier is the caller's, be it from the lookup or from the scan; absence is not an error. */
  lemma CarrierErrorReturned(
      e: Endian, key: ByteString, carrier: Reader, compare: Compare, error: ErrorCode, data: SpanContextData)
    requires error != LOOKUP_NOT_SUPPORTED && error != NO_ERROR
    requires carrier.lookup(key) == Err(error) ||
      (carrier.lookup(key) == Err(LOOKUP_NOT_SUPPORTED) && carrier.end == Err(error) &&
       forall i :: 0 <= i < |carrier.entries| ==> !compare(carrier.entries[i].0, key))
    ensures Extraction(e, key, carrier, compare, data) ==
      Extracted(data, Returned(if error == KEY_NOT_FOUND then Ok(false) else Err(error)))
  {
    FirstMatchIsFirst(carrier.entries, key, compare);
    hide FromText, FirstMatch;
  }

  /** A value that is not the Base64 text of any bytes is reported as corrupted, and the context is left alone. */
  lemma NotBase64(e: Endian, value: ByteString, data: SpanContextData)
    requires !Base64.ReserveOverflows(ToOctets(value))
    requires forall b: Base64.Octets :: b != [] ==> Base64.Encoding(b) != ToOctets(value)
    ensures FromText(e, value, data) == Extracted(data, Returned(Err(SPAN_CONTEXT_CORRUPTED)))
  {
    hide Wire.Extraction, ToOctets, Base64.Encoding, Base64.Decoding, Base64.ReserveOverflows;
    Base64.StrictInverse(ToOctets(value));
  }

  // ---------- Writing an entry ----------

  /** Setting a key changes no other entry, and leaves the key with its value. */
  lemma {:induction false} SettingKeepsOthers(entries: seq<Entry>, key: ByteString, value: ByteString, other: Entry)
    requires other.0 != key
    ensures other in WithEntry(entries, key, value) <==> other in entries
    ensures (key, value) in WithEntry(entries, key, value)
  {
    var r := WithEntry(entries, key, value);
    if |entries| == 0 {
      assert r[0] == (key, value);
    } else if entries[0].0 == key {
      assert r[0] == (key, value);
      assert entries == [entries[0]] + entries[1..];
    } else {
      SettingKeepsOthers(entries[1..], key, value, other);
      assert entries == [entries[0]] + entries[1..];
    }
  }

  // ---------- Cut values ----------

  /** A text of `4 * k` characters for which the decoder's size is negative. */
  predicate CutTooLong(k: nat) {
    4 * k % 0x1_0000_0000 >= 0x8000_0000
  }

  lemma CutContextText(e: Endian, c: SpanContextData, j: nat)
    requires j <= |ContextText(e, c)|
    ensures var text := Base64.Encoding(ToOctets(Wire.Encoding(e, c)));
      |text| == |ContextText(e, c)| && ToOctets(ContextText(e, c)[..j]) == text[..j]
  {
    hide Wire.Encoding, Base64.Encoding, ToOctets, FromOctets;
    ToFromOctets(Base64.Encoding(ToOctets(Wire.Encoding(e, c))));
    CutOctets(ContextText(e, c), j);
  }

  lemma CutOctets(s: ByteString, j: nat)
    requires j <= |s|
    ensures ToOctets(s[..j]) == ToOctets(s)[..j]
  {
  }

  /** What the decoder makes of the first `j` characters of an encoding. */
  lemma DecodingOfPrefix(b: Base64.Octets, j: nat)
    requires j < |Base64.Encoding(b)|
    ensures j % 4 == 0 ==> j / 4 * 3 < |b|
    ensures Base64.Decoding(Base64.Encoding(b)[..j]) ==
      if j % 4 != 0 || j == 0 then Base64.Decoded([])
      else if CutTooLong(j / 4) then Base64.LengthError
      else Base64.Decoded(b[..j / 4 * 3])
  {
    hide Base64.Encoding, Base64.DecodeGroups, Base64.ReservedSize, CutTooLong;
    if j % 4 == 0 {
      Base64.EncodingPrefix(b, j / 4);
      if j > 0 {
        DecodingOfWhole(b[..j / 4 * 3]);
      }
    }
  }

  /** Decoding an encoding that has no PAD. */
  lemma DecodingOfWhole(b: Base64.Octets)
    requires |b| > 0 && |b| % 3 == 0
    ensures |Base64.Encoding(b)| == |b| / 3 * 4
    ensures Base64.Decoding(Base64.Encoding(b)) ==
      if CutTooLong(|b| / 3) then Base64.LengthError else Base64.Decoded(b)
  {
    hide Base64.Encoding, Base64.DecodeGroups;
    Base64.EncodingLength(b);
    Base64.ReserveThrows(b);
    Base64.DecodeOfEncoding(b);
  }

  lemma CutFromOctets(s: ByteString, j: nat)
    requires j <= |s|
    ensures FromOctets(ToOctets(s)[..j]) == s[..j]
  {
  }

  /**
    Extraction from every strict prefix of a context's text: it cannot be decoded,
    or it is decoded to three quarters as many bytes of the context's encoding.
   */
  lemma CutText(e: Endian, c: SpanContextData, j: nat, data: SpanContextData)
    requires j < |ContextText(e, c)|
    ensures var x := FromText(e, ContextText(e, c)[..j], data);
      if j % 4 != 0 || j == 0 then x == Extracted(data, Returned(Err(SPAN_CONTEXT_CORRUPTED)))
      else if CutTooLong(j / 4) then x == Extracted(data, LengthErrorThrown)
      else
        j / 4 * 3 < |Wire.Encoding(e, c)| &&
        var y := Wire.Extraction(e, Streams.Fresh(Wire.Encoding(e, c)[..j / 4 * 3]), data);
        x == Extracted(y.data, Returned(y.result))
  {
    hide Wire.Extraction, Wire.Encoding, Base64.Encoding, Base64.Decoding, ToOctets, FromOctets, ContextText,
      CutTooLong;
    CutContextText(e, c, j);
    DecodingOfPrefix(ToOctets(Wire.Encoding(e, c)), j);
    if j % 4 == 0 {
      CutFromOctets(Wire.Encoding(e, c), j / 4 * 3);
    }
  }
}
