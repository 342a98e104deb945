/** Laws of the binary form: round trips, framing, truncation, normal form and byte order. */
module WireLaws {
  import opened Wrappers
  import opened Errors
  import opened Bytes
  import opened Seqs
  import opened StdMap
  import opened Streams
  import opened SpanData
  import opened Wire

  type Baggage = map<ByteString, ByteString>

  // ---------- Reading what was written ----------

  lemma ReadWordOfBytes(e: Endian, word: ByteString, rest: ByteString, x: nat)
    ensures ReadWord(e, Fresh(word + rest), x, |word|) == (Fresh(rest), LittleValue(word))
  {
    assert (word + rest)[..|word|] == word && (word + rest)[|word|..] == rest;
    assert word + Memory(e, x, |word|)[|word|..] == word;
  }

  lemma ReadStringOfBytes(e: Endian, s: ByteString, rest: ByteString, old_s: ByteString)
    requires |s| < TWO_TO_THE_32
    ensures ReadingString(e, Fresh(StringBytes(e, s) + rest), old_s) == (Fresh(rest), s)
  {
    PowersOf256();
    var size := Memory(e, |s|, 4);
    FromMemoryOfMemory(e, |s|, 4);
    assert s[..|s|] == s;
    var all := StringBytes(e, s) + rest;
    assert all[..4] == size && all[4..] == s + rest;
    assert size + Memory(e, 0, 4)[4..] == size;
    assert (s + rest)[..|s|] == s && (s + rest)[|s|..] == rest;
    assert s + Resized(old_s, |s|)[|s|..] == s;
  }

  lemma ReadPairOfBytes(e: Endian, p: Pair, rest: ByteString, key: ByteString, value: ByteString)
    requires |p.0| < TWO_TO_THE_32 && |p.1| < TWO_TO_THE_32
    ensures ReadingString(e, Fresh(PairBytes(e, p) + rest), key) == (Fresh(StringBytes(e, p.1) + rest), p.0)
    ensures ReadingString(e, Fresh(StringBytes(e, p.1) + rest), value) == (Fresh(rest), p.1)
  {
    Associate(StringBytes(e, p.0), StringBytes(e, p.1), rest);
    ReadStringOfBytes(e, p.0, StringBytes(e, p.1) + rest, key);
    ReadStringOfBytes(e, p.1, rest, value);
  }

  lemma ReadFirstPair(
      e: Endian, p: Pair, tail: ByteString, n: nat, baggage: Baggage, key: ByteString, value: ByteString)
    requires n > 0 && |p.0| < TWO_TO_THE_32 && |p.1| < TWO_TO_THE_32
    ensures ReadingPairs(e, Fresh(PairBytes(e, p) + tail), n, baggage, key, value)
      == ReadingPairs(e, Fresh(tail), n - 1, baggage[p.0 := p.1], p.0, p.1)
  {
    ReadPairOfBytes(e, p, tail, key, value);
    PairStep(e, Fresh(PairBytes(e, p) + tail), n, baggage, key, value,
             Fresh(StringBytes(e, p.1) + tail), p.0, Fresh(tail), p.1);
  }

  lemma {:induction false} ReadPairsOfBytes(
      e: Endian, pairs: seq<Pair>, rest: ByteString, baggage: Baggage, key: ByteString, value: ByteString)
    requires ShortPairs(pairs)
    ensures ReadingPairs(e, Fresh(PairsBytes(e, pairs) + rest), |pairs|, baggage, key, value)
      == Loop(Fresh(rest), AssignAll<ByteString>(baggage, pairs), true)
    decreases |pairs|
  {
    if |pairs| == 0 {
      assert PairsBytes(e, pairs) + rest == rest;
    } else {
      var p, others := pairs[0], pairs[1..];
      Associate(PairBytes(e, p), PairsBytes(e, others), rest);
      ReadFirstPair(e, p, PairsBytes(e, others) + rest, |pairs|, baggage, key, value);
      ReadPairsOfBytes(e, others, rest, baggage[p.0 := p.1], p.0, p.1);
    }
  }

  /** The fixed header, for any bytes, and what the loop makes of the rest. */
  lemma ExtractionOfBytes(
      e: Endian, a: ByteString, b: ByteString, k: ByteString, rest: ByteString,
      data: SpanContextData, loop: Loop)
    requires |a| == |b| == 8 && |k| == 4
    requires ReadingPairs(e, Fresh(rest), Turns(LittleValue(k)), data.baggage, "", "") == loop
    ensures var x := Extraction(e, Fresh(a + (b + (k + rest))), data);
      x.data.traceId == LittleValue(a) && x.data.spanId == LittleValue(b) && x.data.baggage == loop.baggage &&
      x.stream == loop.stream && x.result == if loop.good then Ok(true) else Err(IO_ERROR)
  {
    hide LittleValue, ReadingPairs, ReadWord;
    ReadWordOfBytes(e, a, b + (k + rest), data.traceId);
    ReadWordOfBytes(e, b, k + rest, data.spanId);
    ReadWordOfBytes(e, k, rest, 0);
  }

  lemma ExtractionAfterHeader(
      e: Endian, c: SpanContextData, rest: ByteString, data: SpanContextData, n: nat, loop: Loop)
    requires n == Turns(Low32(|c.baggage|))
    requires ReadingPairs(e, Fresh(rest), n, data.baggage, "", "") == loop
    ensures Extraction(e, Fresh(Header(c) + rest), data) ==
      Extracted(loop.stream, SpanContextData(c.traceId, c.spanId, loop.baggage),
                if loop.good then Ok(true) else Err(IO_ERROR))
  {
    hide LittleEndian, LittleValue, ReadingPairs, Extraction;
    PowersOf256();
    var a, b, k := LittleEndian(c.traceId, 8), LittleEndian(c.spanId, 8), LittleEndian(Low32(|c.baggage|), 4);
    LittleValueOfLittleEndian(c.traceId, 8);
    LittleValueOfLittleEndian(c.spanId, 8);
    LittleValueOfLittleEndian(Low32(|c.baggage|), 4);
    ExtractionOfBytes(e, a, b, k, rest, data, loop);
    assert Header(c) + rest == a + (b + (k + rest));
  }

  /** Extraction undoes injection, reads no byte beyond it and leaves the stream good. */
  lemma RoundTrip(e: Endian, c: SpanContextData, rest: ByteString, data: SpanContextData)
    requires Fits(c)
    ensures Extraction(e, Fresh(Encoding(e, c) + rest), data)
      == Extracted(Fresh(rest), c.(baggage := data.baggage + c.baggage), Ok(true))
  {
    var items := Items<ByteString>(c.baggage);
    FitsShortItems(c);
    ReadPairsOfBytes(e, items, rest, data.baggage, "", "");
    AssignAllItems<ByteString>(data.baggage, c.baggage);
    Associate(Header(c), PairsBytes(e, items), rest);
    ExtractionAfterHeader(e, c, PairsBytes(e, items) + rest, data, |items|,
                          Loop(Fresh(rest), data.baggage + c.baggage, true));
  }

  /** Identifiers survive whatever the baggage, also between hosts of different byte order. */
  lemma IdentifiersSurvive(e1: Endian, e2: Endian, c: SpanContextData, rest: ByteString, data: SpanContextData)
    ensures var x := Extraction(e2, Fresh(Encoding(e1, c) + rest), data);
      x.data.traceId == c.traceId && x.data.spanId == c.spanId
  {
    var body := PairsBytes(e1, Items<ByteString>(c.baggage)) + rest;
    Associate(Header(c), PairsBytes(e1, Items<ByteString>(c.baggage)), rest);
    var n := Turns(Low32(|c.baggage|));
    ExtractionAfterHeader(e2, c, body, data, n, ReadingPairs(e2, Fresh(body), n, data.baggage, "", ""));
  }

  // ---------- Layout ----------

  /**
    Byte by byte: the identifiers and the number of pairs from their low byte to
    their high one, and then the pairs in ascending order of the keys' bytes.
   */
  lemma EncodingLayout(e: Endian, c: SpanContextData, pairs: seq<Pair>)
    requires Ascending<ByteString>(pairs) && AssignAll<ByteString>(map[], pairs) == c.baggage
    ensures var bytes := Encoding(e, c);
      |bytes| >= 20 &&
      (forall i :: 0 <= i < 8 ==> bytes[i] as int == c.traceId / Pow256(i) % 256) &&
      (forall i :: 0 <= i < 8 ==> bytes[8 + i] as int == c.spanId / Pow256(i) % 256) &&
      (forall i :: 0 <= i < 4 ==> bytes[16 + i] as int == Low32(|pairs|) / Pow256(i) % 256) &&
      bytes[20..] == PairsBytes(e, pairs)
  {
    hide LittleEndian, PairsBytes, AssignAll, Items, Ascending, Low32, Pow256;
    ItemsExactly<ByteString>(c.baggage, pairs);
    var bytes := Encoding(e, c);
    assert bytes[20..] == PairsBytes(e, pairs);
    forall i | 0 <= i < 8
      ensures bytes[i] as int == c.traceId / Pow256(i) % 256
      ensures bytes[8 + i] as int == c.spanId / Pow256(i) % 256
    {
      LittleEndianAt(c.traceId, 8, i);
      LittleEndianAt(c.spanId, 8, i);
    }
    forall i | 0 <= i < 4 ensures bytes[16 + i] as int == Low32(|pairs|) / Pow256(i) % 256 {
      LittleEndianAt(Low32(|pairs|), 4, i);
    }
  }

  // ---------- The range of extraction ----------

  predicate ShortBaggage(b: Baggage) {
    forall k :: k in b ==> |k| < TWO_TO_THE_32 && |b[k]| < TWO_TO_THE_32
  }

  lemma ReadStringShort(e: Endian, s: In, str: ByteString)
    ensures |ReadingString(e, s, str).1| < TWO_TO_THE_32
  {
    PowersOf256();
    MemoryOfFromMemory(e, ReadOver(s, Memory(e, 0, 4)).1);
  }

  /** What one turn of the loop reads is short, whatever the input. */
  lemma NextPair(e: Endian, s: In, n: nat, baggage: Baggage, key: ByteString, value: ByteString)
    returns (s2: In, k: ByteString, v: ByteString)
    requires n > 0
    ensures |k| < TWO_TO_THE_32 && |v| < TWO_TO_THE_32
    ensures ReadingPairs(e, s, n, baggage, key, value) ==
      if s2.Good() then ReadingPairs(e, s2, n - 1, baggage[k := v], k, v) else Loop(s2, baggage[k := v], false)
  {
    var (s1, k0) := ReadingString(e, s, key);
    var (s2', v0) := ReadingString(e, s1, value);
    ReadStringShort(e, s, key);
    ReadStringShort(e, s1, value);
    PairStep(e, s, n, baggage, key, value, s1, k0, s2', v0);
    s2, k, v := s2', k0, v0;
  }

  lemma {:induction false} ReadPairsRange(
      e: Endian, s: In, n: nat, baggage: Baggage, key: ByteString, value: ByteString, loop: Loop)
    requires ShortBaggage(baggage)
    requires loop == ReadingPairs(e, s, n, baggage, key, value)
    ensures |loop.baggage| <= |baggage| + n && ShortBaggage(loop.baggage)
    decreases n
  {
    hide ReadingString;
    if n != 0 {
      var s2, k, v := NextPair(e, s, n, baggage, key, value);
      UpdateRange(baggage, k, v);
      if s2.Good() {
        ReadPairsRange(e, s2, n - 1, baggage[k := v], k, v, loop);
      }
    }
  }

  lemma UpdateRange(b: Baggage, k: ByteString, v: ByteString)
    ensures |b[k := v]| <= |b| + 1
    ensures ShortBaggage(b) && |k| < TWO_TO_THE_32 && |v| < TWO_TO_THE_32 ==> ShortBaggage(b[k := v])
  {
    assert b[k := v].Keys == b.Keys + {k};
    assert |b.Keys + {k}| <= |b.Keys| + 1;
  }

  /** No input makes extraction produce a context that injection would cut. */
  lemma ExtractionFits(e: Endian, s: In)
    ensures Fits(Extraction(e, s, EMPTY_CONTEXT).data)
  {
    if s.Good() && s.rest != "" {
      var (s1, traceId) := ReadWord(e, s, 0, 8);
      var (s2, spanId) := ReadWord(e, s1, 0, 8);
      var (s3, count) := ReadWord(e, s2, 0, 4);
      ReadPairsRange(e, s3, Turns(count), map[], "", "", ReadingPairs(e, s3, Turns(count), map[], "", ""));
    }
  }

  lemma RoundTripFromEmpty(e: Endian, c: SpanContextData, rest: ByteString)
    requires Fits(c)
    ensures Extraction(e, Fresh(Encoding(e, c) + rest), EMPTY_CONTEXT) == Extracted(Fresh(rest), c, Ok(true))
  {
    hide Extraction, Encoding;
    RoundTrip(e, c, rest, EMPTY_CONTEXT);
    assert map[] + c.baggage == c.baggage;
  }

  /** The round trip gives the context back exactly for the contexts that fit. */
  lemma RoundTripExactly(e: Endian, c: SpanContextData)
    ensures (var x := Extraction(e, Fresh(Encoding(e, c)), EMPTY_CONTEXT);
      x.data == c && x.result == Ok(true)) <==> Fits(c)
  {
    hide Extraction, Encoding;
    ExtractionFits(e, Fresh(Encoding(e, c)));
    if Fits(c) {
      RoundTripFromEmpty(e, c, "");
      assert Encoding(e, c) + "" == Encoding(e, c);
    }
  }

  // ---------- Framing ----------

  function Encodings(e: Endian, cs: seq<SpanContextData>): ByteString {
    if |cs| == 0 then "" else Encoding(e, cs[0]) + Encodings(e, cs[1..])
  }

  /** The stream after `n` extractions. */
  function StreamAfter(e: Endian, s: In, n: nat): In
    decreases n
  {
    if n == 0 then s else StreamAfter(e, Extraction(e, s, EMPTY_CONTEXT).stream, n - 1)
  }

  lemma ExtractOneOf(e: Endian, cs: seq<SpanContextData>)
    requires |cs| > 0 && Fits(cs[0])
    ensures Extraction(e, Fresh(Encodings(e, cs)), EMPTY_CONTEXT)
      == Extracted(Fresh(Encodings(e, cs[1..])), cs[0], Ok(true))
  {
    RoundTripFromEmpty(e, cs[0], Encodings(e, cs[1..]));
  }

  lemma {:induction false} StreamAfterSome(e: Endian, cs: seq<SpanContextData>, i: nat, s: In)
    requires i <= |cs| && forall c :: c in cs ==> Fits(c)
    requires s == Fresh(Encodings(e, cs))
    ensures StreamAfter(e, s, i) == Fresh(Encodings(e, cs[i..]))
    decreases i
  {
    hide Extraction, Encoding;
    if i == 0 {
      assert cs[0..] == cs;
    } else {
      ExtractOneOf(e, cs);
      StreamAfterSome(e, cs[1..], i - 1, Fresh(Encodings(e, cs[1..])));
      assert cs[1..][i - 1..] == cs[i..];
    }
  }

  lemma ExtractNth(e: Endian, cs: seq<SpanContextData>, i: nat)
    requires i < |cs| && forall c :: c in cs ==> Fits(c)
    ensures Extraction(e, StreamAfter(e, Fresh(Encodings(e, cs)), i), EMPTY_CONTEXT)
      == Extracted(Fresh(Encodings(e, cs[i + 1..])), cs[i], Ok(true))
  {
    StreamAfterSome(e, cs, i, Fresh(Encodings(e, cs)));
    assert cs[i..][1..] == cs[i + 1..];
    ExtractOneOf(e, cs[i..]);
  }

  /**
    Injected contexts delimit themselves: extracting again and again from their
    concatenation gives them back in order, with the stream good in between;
    the next call finds no context, and the one after that an unusable stream.
   */
  lemma SelfDelimiting(e: Endian, cs: seq<SpanContextData>)
    requires forall c :: c in cs ==> Fits(c)
    ensures forall i :: 0 <= i < |cs| ==>
      Extraction(e, StreamAfter(e, Fresh(Encodings(e, cs)), i), EMPTY_CONTEXT)
        == Extracted(Fresh(Encodings(e, cs[i + 1..])), cs[i], Ok(true))
    ensures var end := Extraction(e, StreamAfter(e, Fresh(Encodings(e, cs)), |cs|), EMPTY_CONTEXT);
      end.result == Ok(false) && end.data == EMPTY_CONTEXT &&
      Extraction(e, end.stream, EMPTY_CONTEXT).result == Err(IO_ERROR)
  {
    forall i | 0 <= i < |cs|
      ensures Extraction(e, StreamAfter(e, Fresh(Encodings(e, cs)), i), EMPTY_CONTEXT)
        == Extracted(Fresh(Encodings(e, cs[i + 1..])), cs[i], Ok(true))
    {
      ExtractNth(e, cs, i);
    }
    StreamAfterSome(e, cs, |cs|, Fresh(Encodings(e, cs)));
    assert Encodings(e, cs[|cs|..]) == "";
  }

  // ---------- Truncation ----------

  /** A stream that is not good stays so, and gives no more bytes. */
  lemma NotGoodStays(e: Endian, s: In, str: ByteString)
    requires !s.Good()
    ensures !ReadingString(e, s, str).0.Good()
  {
  }

  lemma ReadPairsNotGood(
      e: Endian, s: In, n: nat, baggage: Baggage, key: ByteString, value: ByteString)
    requires !s.Good() && n > 0
    ensures !ReadingPairs(e, s, n, baggage, key, value).good
  {
    var (s1, k) := ReadingString(e, s, key);
    var (s2, v) := ReadingString(e, s1, value);
    NotGoodStays(e, s, key);
    NotGoodStays(e, s1, value);
    hide ReadingString;
    PairStep(e, s, n, baggage, key, value, s1, k, s2, v);
  }

  lemma ReadStringCut(e: Endian, s: ByteString, j: nat, str: ByteString)
    requires |s| < TWO_TO_THE_32 && j < |StringBytes(e, s)|
    ensures !ReadingString(e, Fresh(StringBytes(e, s)[..j]), str).0.Good()
  {
    PowersOf256();
    FromMemoryOfMemory(e, |s|, 4);
    var size, cut := Memory(e, |s|, 4), StringBytes(e, s)[..j];
    if 4 <= j {
      assert cut[..4] == size;
      assert size + Memory(e, 0, 4)[4..] == size;
      assert |cut[4..]| < |s|;
    }
  }

  lemma ReadPairCut(e: Endian, p: Pair, j: nat, key: ByteString, value: ByteString)
    requires |p.0| < TWO_TO_THE_32 && |p.1| < TWO_TO_THE_32 && j < |PairBytes(e, p)|
    ensures var (s1, k) := ReadingString(e, Fresh(PairBytes(e, p)[..j]), key);
      !ReadingString(e, s1, value).0.Good()
  {
    hide ReadingString, StringBytes;
    var first := StringBytes(e, p.0);
    var cut := PairBytes(e, p)[..j];
    if j < |first| {
      assert cut == first[..j];
      ReadStringCut(e, p.0, j, key);
      NotGoodStays(e, ReadingString(e, Fresh(cut), key).0, value);
    } else {
      assert cut == first + StringBytes(e, p.1)[..j - |first|];
      ReadStringOfBytes(e, p.0, StringBytes(e, p.1)[..j - |first|], key);
      ReadStringCut(e, p.1, j - |first|, value);
    }
  }

  lemma ReadFirstPairCut(
      e: Endian, p: Pair, j: nat, n: nat, baggage: Baggage, key: ByteString, value: ByteString)
    requires n > 0 && |p.0| < TWO_TO_THE_32 && |p.1| < TWO_TO_THE_32 && j < |PairBytes(e, p)|
    ensures !ReadingPairs(e, Fresh(PairBytes(e, p)[..j]), n, baggage, key, value).good
  {
    hide PairBytes, ReadingString, ReadingPairs;
    var cut := PairBytes(e, p)[..j];
    ReadPairCut(e, p, j, key, value);
    var (s1, k) := ReadingString(e, Fresh(cut), key);
    var (s2, v) := ReadingString(e, s1, value);
    PairStep(e, Fresh(cut), n, baggage, key, value, s1, k, s2, v);
  }

  lemma {:induction false} ReadPairsCut(
      e: Endian, pairs: seq<Pair>, j: nat, baggage: Baggage, key: ByteString, value: ByteString)
    requires ShortPairs(pairs) && j < |PairsBytes(e, pairs)|
    ensures !ReadingPairs(e, Fresh(PairsBytes(e, pairs)[..j]), |pairs|, baggage, key, value).good
    decreases |pairs|
  {
    hide ReadingPairs, PairBytes;
    var p, others := pairs[0], pairs[1..];
    if j < |PairBytes(e, p)| {
      CutBefore(PairBytes(e, p), PairsBytes(e, others), j);
      ReadFirstPairCut(e, p, j, |pairs|, baggage, key, value);
    } else {
      var i := j - |PairBytes(e, p)|;
      CutAfter(PairBytes(e, p), PairsBytes(e, others), j);
      ReadPairsCut(e, others, i, baggage[p.0 := p.1], p.0, p.1);
      ReadFirstPair(e, p, PairsBytes(e, others)[..i], |pairs|, baggage, key, value);
    }
  }

  lemma CutBefore(a: ByteString, b: ByteString, j: nat)
    requires j <= |a|
    ensures (a + b)[..j] == a[..j]
  {
  }

  lemma CutAfter(a: ByteString, b: ByteString, j: nat)
    requires |a| <= j <= |a| + |b|
    ensures (a + b)[..j] == a + b[..j - |a|]
  {
  }

  /** A cut inside the baggage is always an error. */
  lemma CutInBaggage(e: Endian, c: SpanContextData, n: nat, data: SpanContextData)
    requires Fits(c) && 20 <= n < |Encoding(e, c)|
    ensures Extraction(e, Fresh(Encoding(e, c)[..n]), data).result == Err(IO_ERROR)
  {
    hide Extraction, ReadingPairs, Header, PairsBytes;
    var items := Items<ByteString>(c.baggage);
    var body := PairsBytes(e, items)[..n - 20];
    assert Encoding(e, c)[..n] == Header(c) + body;
    FitsShortItems(c);
    ReadPairsCut(e, items, n - 20, data.baggage, "", "");
    ExtractionAfterHeader(e, c, body, data, |items|, ReadingPairs(e, Fresh(body), |items|, data.baggage, "", ""));
  }

  /** The low bytes that are left of a cut word, the missing ones being zero. */
  lemma {:induction false} CutWord(x: nat, n: nat, m: nat)
    requires m <= n && x < Pow256(n)
    ensures LittleValue(LittleEndian(x, n)[..m] + Zeros(n - m)) == x % Pow256(m)
  {
    if m == 0 {
      assert LittleEndian(x, n)[..0] + Zeros(n) == Zeros(n);
      ZeroWord(n);
    } else {
      var word, tail := LittleEndian(x, n)[..m] + Zeros(n - m), LittleEndian(x / 256, n - 1)[..m - 1] + Zeros(n - m);
      assert word == [(x % 256) as char] + tail;
      assert word[1..] == tail;
      CutWord(x / 256, n - 1, m - 1);
      hide LittleEndian;
      SplitModulo(x, Pow256(m - 1));
    }
  }

  lemma {:induction false} ZeroWord(n: nat)
    ensures LittleEndian(0, n) == Zeros(n) && LittleValue(Zeros(n)) == 0
  {
    if n != 0 {
      ZeroWord(n - 1);
      assert Zeros(n) == ['\0'] + Zeros(n - 1);
      assert Zeros(n)[1..] == Zeros(n - 1);
    }
  }

  lemma SplitModulo(x: nat, p: nat)
    requires p > 0
    ensures x % (256 * p) == x % 256 + 256 * (x / 256 % p)
  {
    var q, r := x / 256, x % 256;
    var a, b := q / p, q % p;
    assert x == (256 * p) * a + (256 * b + r) by {
      assert q == p * a + b;
    }
    DivisionUnique(x, 256 * p, a, 256 * b + r);
  }

  lemma ReadWordShort(e: Endian, bytes: ByteString, n: nat)
    requires |bytes| < n
    ensures !ReadWord(e, Fresh(bytes), 0, n).0.Good()
    ensures ReadWord(e, Fresh(bytes), 0, n).1 == LittleValue(bytes + Zeros(n - |bytes|))
  {
    hide LittleValue, Memory, Zeros;
    ZeroMemory(e, n);
    DropZeros(n, |bytes|);
  }

  lemma DropZeros(n: nat, k: nat)
    requires k <= n
    ensures Zeros(n)[k..] == Zeros(n - k)
  {
  }

  lemma ReadWordNotGood(e: Endian, s: In, n: nat)
    requires !s.Good()
    ensures !ReadWord(e, s, 0, n).0.Good() && ReadWord(e, s, 0, n).1 == 0
  {
    ZeroMemory(e, n);
    ZeroWord(n);
    assert "" + Memory(e, 0, n)[0..] == Memory(e, 0, n);
  }

  lemma ZeroMemory(e: Endian, n: nat)
    ensures Memory(e, 0, n) == Zeros(n)
  {
    ZeroWord(n);
    assert Reverse(Zeros(n)) == Zeros(n);
  }

  /** What the three header reads leave behind when the header is cut after `n` bytes. */
  function CutCount(c: SpanContextData, n: nat): nat {
    if n <= 16 then 0 else Low32(|c.baggage|) % Pow256(n - 16)
  }

  /** The identifiers are cut to their low bytes, and there is no baggage. */
  function PartialContext(c: SpanContextData, n: nat): SpanContextData {
    ModuloAtMost(c.traceId, Pow256(n));
    SpanContextData(
      if n < 8 then c.traceId % Pow256(n) else c.traceId,
      CutSpanId(c, n),
      map[])
  }

  function CutSpanId(c: SpanContextData, n: nat): UInt64 {
    if n < 8 then 0
    else if n < 16 then
      ModuloAtMost(c.spanId, Pow256(n - 8));
      c.spanId % Pow256(n - 8)
    else c.spanId
  }

  lemma ReadCutHeader(e: Endian, c: SpanContextData, n: nat)
    requires 0 < n < 20
    ensures var (s1, a) := ReadWord(e, Fresh(Header(c)[..n]), 0, 8);
      var (s2, b) := ReadWord(e, s1, 0, 8);
      var (s3, count) := ReadWord(e, s2, 0, 4);
      !s3.Good() && a == PartialContext(c, n).traceId && b == CutSpanId(c, n) && count == CutCount(c, n)
  {
    hide ReadWord, LittleEndian, LittleValue, Low32, Pow256;
    PowersOf256();
    var a, b, k := LittleEndian(c.traceId, 8), LittleEndian(c.spanId, 8), LittleEndian(Low32(|c.baggage|), 4);
    LittleValueOfLittleEndian(c.traceId, 8);
    LittleValueOfLittleEndian(c.spanId, 8);
    if n < 8 {
      CutWord(c.traceId, 8, n);
      CutInTraceId(e, a, b, k, n);
    } else if n < 16 {
      CutWord(c.spanId, 8, n - 8);
      CutInSpanId(e, a, b, k, n);
    } else {
      CutWord(Low32(|c.baggage|), 4, n - 16);
      CutInCount(e, a, b, k, n);
      if n == 16 {
        ModuloOne(Low32(|c.baggage|));
      }
    }
  }

  lemma ModuloOne(x: nat)
    ensures x % Pow256(0) == 0
  {
  }

  lemma CutInTraceId(e: Endian, a: ByteString, b: ByteString, k: ByteString, n: nat)
    requires |a| == |b| == 8 && |k| == 4 && n < 8
    ensures var (s1, x) := ReadWord(e, Fresh((a + b + k)[..n]), 0, 8);
      var (s2, y) := ReadWord(e, s1, 0, 8);
      var (s3, count) := ReadWord(e, s2, 0, 4);
      !s3.Good() && x == LittleValue(a[..n] + Zeros(8 - n)) && y == 0 && count == 0
  {
    hide ReadWord, Zeros, LittleValue;
    var cut := (a + b + k)[..n];
    assert cut == a[..n];
    ReadWordShort(e, cut, 8);
    var s1 := ReadWord(e, Fresh(cut), 0, 8).0;
    ReadWordNotGood(e, s1, 8);
    ReadWordNotGood(e, ReadWord(e, s1, 0, 8).0, 4);
  }

  lemma CutInSpanId(e: Endian, a: ByteString, b: ByteString, k: ByteString, n: nat)
    requires |a| == |b| == 8 && |k| == 4 && 8 <= n < 16
    ensures var (s1, x) := ReadWord(e, Fresh((a + b + k)[..n]), 0, 8);
      var (s2, y) := ReadWord(e, s1, 0, 8);
      var (s3, count) := ReadWord(e, s2, 0, 4);
      !s3.Good() && x == LittleValue(a) && y == LittleValue(b[..n - 8] + Zeros(16 - n)) && count == 0
  {
    hide ReadWord, Zeros, LittleValue;
    var cut := (a + b + k)[..n];
    assert cut == a + b[..n - 8];
    ReadWordOfBytes(e, a, b[..n - 8], 0);
    ReadWordShort(e, b[..n - 8], 8);
    ReadWordNotGood(e, ReadWord(e, Fresh(b[..n - 8]), 0, 8).0, 4);
  }

  lemma CutInCount(e: Endian, a: ByteString, b: ByteString, k: ByteString, n: nat)
    requires |a| == |b| == 8 && |k| == 4 && 16 <= n < 20
    ensures var (s1, x) := ReadWord(e, Fresh((a + b + k)[..n]), 0, 8);
      var (s2, y) := ReadWord(e, s1, 0, 8);
      var (s3, count) := ReadWord(e, s2, 0, 4);
      !s3.Good() && x == LittleValue(a) && y == LittleValue(b) && count == LittleValue(k[..n - 16] + Zeros(20 - n))
  {
    hide ReadWord, Zeros, LittleValue;
    assert (a + b + k)[..n] == a + (b + k[..n - 16]);
    ReadWordOfBytes(e, a, b + k[..n - 16], 0);
    ReadWordOfBytes(e, b, k[..n - 16], 0);
    ReadWordShort(e, k[..n - 16], 4);
  }

  lemma ExtractionResult(
      e: Endian, s: In, s1: In, a: nat, s2: In, b: nat, s3: In, count: nat)
    requires s.Good() && s.rest != ""
    requires (s1, a) == ReadWord(e, s, 0, 8) && (s2, b) == ReadWord(e, s1, 0, 8) && (s3, count) == ReadWord(e, s2, 0, 4)
    ensures var x := Extraction(e, s, EMPTY_CONTEXT); var loop := ReadingPairs(e, s3, Turns(count), map[], "", "");
      x.data.traceId == a && x.data.spanId == b && x.data.baggage == loop.baggage &&
      x.result == if loop.good then Ok(true) else Err(IO_ERROR)
  {
    hide ReadWord, ReadingPairs;
  }

  /** A cut header is taken for a context whenever the bytes left of the count are zero. */
  lemma CutInHeader(e: Endian, c: SpanContextData, n: nat)
    requires Fits(c) && 0 < n < 20
    ensures Extraction(e, Fresh(Header(c)[..n]), EMPTY_CONTEXT).result
      == if CutCount(c, n) == 0 then Ok(true) else Err(IO_ERROR)
    ensures CutCount(c, n) == 0 ==> Extraction(e, Fresh(Header(c)[..n]), EMPTY_CONTEXT).data == PartialContext(c, n)
  {
    hide ReadWord, Header, Extraction, CutCount, CutSpanId, ReadingPairs, Pow256;
    var s := Fresh(Header(c)[..n]);
    var (s1, a) := ReadWord(e, s, 0, 8);
    var (s2, b) := ReadWord(e, s1, 0, 8);
    var (s3, count) := ReadWord(e, s2, 0, 4);
    ReadCutHeader(e, c, n);
    CutCountSmall(c, n);
    ExtractionResult(e, s, s1, a, s2, b, s3, count);
    if count == 0 {
      NoTurns(e, s3);
    } else {
      ReadPairsNotGood(e, s3, count, map[], "", "");
    }
  }

  lemma CutCountSmall(c: SpanContextData, n: nat)
    requires Fits(c) && n < 20
    ensures CutCount(c, n) < TWO_TO_THE_31
  {
    if n > 16 {
      ModuloAtMost(Low32(|c.baggage|), Pow256(n - 16));
    }
    hide Low32, Pow256;
  }

  lemma ModuloAtMost(x: nat, p: nat)
    requires p > 0
    ensures x % p <= x
  {
  }

  lemma NoTurns(e: Endian, s: In)
    ensures ReadingPairs(e, s, 0, map[], "", "") == Loop(s, map[], true)
  {
  }

  /** Cut after eight bytes, every context is taken for one with its trace identifier and nothing else. */
  lemma CutAfterTraceId(e: Endian, c: SpanContextData)
    ensures var x := Extraction(e, Fresh(Encoding(e, c)[..8]), EMPTY_CONTEXT);
      x.data == SpanContextData(c.traceId, 0, map[]) && x.result == Ok(true)
  {
    hide ReadWord, LittleEndian, LittleValue, PairsBytes;
    PowersOf256();
    var word := LittleEndian(c.traceId, 8);
    LittleValueOfLittleEndian(c.traceId, 8);
    assert Encoding(e, c)[..8] == word + "";
    ReadWordOfBytes(e, word, "", 0);
    ReadWordShort(e, "", 8);
    ZeroWord(8);
    assert "" + Zeros(8) == Zeros(8);
    ReadWordNotGood(e, ReadWord(e, Fresh(""), 0, 8).0, 4);
  }

  /**
    What becomes of the first `n` bytes of an injected context, for every `n`.
    Cuts in the baggage are caught; cuts in the header are not, unless they leave
    a non-zero part of the count, and then the context has what is left of the
    identifiers.
   */
  lemma Truncation(e: Endian, c: SpanContextData, n: nat)
    requires Fits(c) && n <= |Encoding(e, c)|
    ensures Extraction(e, Fresh(Encoding(e, c)[..n]), EMPTY_CONTEXT).result ==
      if n == 0 then Ok(false)
      else if n == |Encoding(e, c)| then Ok(true)
      else if n < 20 && (n <= 16 || |c.baggage| % Pow256(n - 16) == 0) then Ok(true)
      else Err(IO_ERROR)
    ensures 0 < n < 20 && (n <= 16 || |c.baggage| % Pow256(n - 16) == 0) ==>
      Extraction(e, Fresh(Encoding(e, c)[..n]), EMPTY_CONTEXT).data == PartialContext(c, n)
  {
    if n == 0 {
    } else if n == |Encoding(e, c)| {
      assert Encoding(e, c)[..n] == Encoding(e, c) + "";
      RoundTripFromEmpty(e, c, "");
    } else if n < 20 {
      CutBefore(Header(c), PairsBytes(e, Items<ByteString>(c.baggage)), n);
      CutInHeader(e, c, n);
      assert CutCount(c, n) == if n <= 16 then 0 else |c.baggage| % Pow256(n - 16);
    } else {
      CutInBaggage(e, c, n, EMPTY_CONTEXT);
    }
    hide Extraction, Encoding, PartialContext, Pow256;
  }

  // ---------- Normal form ----------

  /** One good turn of the loop reads one pair. */
  lemma PairRead(
      e: Endian, s: In, n: nat, baggage: Baggage, key: ByteString, value: ByteString, loop: Loop)
    returns (p: Pair, s2: In)
    requires n > 0 && s.Good() && loop == ReadingPairs(e, s, n, baggage, key, value) && loop.good
    ensures |p.0| < TWO_TO_THE_32 && |p.1| < TWO_TO_THE_32
    ensures s2.Good() && s.rest == PairBytes(e, p) + s2.rest
    ensures loop == ReadingPairs(e, s2, n - 1, baggage[p.0 := p.1], p.0, p.1)
  {
    var (s1, k) := ReadingString(e, s, key);
    var (s2', v) := ReadingString(e, s1, value);
    PairStep(e, s, n, baggage, key, value, s1, k, s2', v);
    hide ReadingString, ReadingPairs, StringBytes;
    NotGoodStays'(e, s1, value);
    StringRead(e, s, key);
    StringRead(e, s1, value);
    Associate(StringBytes(e, k), StringBytes(e, v), s2'.rest);
    p, s2 := (k, v), s2';
  }

  /** The pairs that the loop reads while the stream stays good. */
  lemma {:induction false} PairsRead(
      e: Endian, s: In, n: nat, baggage: Baggage, key: ByteString, value: ByteString, loop: Loop)
    returns (pairs: seq<Pair>)
    requires s.Good() && loop == ReadingPairs(e, s, n, baggage, key, value) && loop.good
    ensures |pairs| == n && ShortPairs(pairs)
    ensures loop.stream.Good() && s.rest == PairsBytes(e, pairs) + loop.stream.rest
    ensures loop.baggage == AssignAll<ByteString>(baggage, pairs)
    decreases n
  {
    hide *;
    if n == 0 {
      NoPairsRead(e, s, baggage, key, value);
      return [];
    }
    var p, s2 := PairRead(e, s, n, baggage, key, value, loop);
    var rest := PairsRead(e, s2, n - 1, baggage[p.0 := p.1], p.0, p.1, loop);
    ConsPairs(e, p, rest, baggage, loop.stream.rest);
    pairs := [p] + rest;
  }

  lemma NoPairsRead(e: Endian, s: In, baggage: Baggage, key: ByteString, value: ByteString)
    ensures ReadingPairs(e, s, 0, baggage, key, value) == Loop(s, baggage, true)
    ensures s.rest == PairsBytes(e, []) + s.rest && ShortPairs([])
    ensures baggage == AssignAll<ByteString>(baggage, [])
  {
  }

  lemma ConsPairs(e: Endian, p: Pair, rest: seq<Pair>, baggage: Baggage, tail: ByteString)
    ensures PairsBytes(e, [p] + rest) + tail == PairBytes(e, p) + (PairsBytes(e, rest) + tail)
    ensures AssignAll<ByteString>(baggage, [p] + rest) == AssignAll<ByteString>(baggage[p.0 := p.1], rest)
    ensures |p.0| < TWO_TO_THE_32 && |p.1| < TWO_TO_THE_32 && ShortPairs(rest) ==> ShortPairs([p] + rest)
  {
    hide PairBytes;
    var pairs := [p] + rest;
    assert pairs[1..] == rest;
    Associate(PairBytes(e, p), PairsBytes(e, rest), tail);
  }

  lemma NotGoodStays'(e: Endian, s: In, str: ByteString)
    ensures ReadingString(e, s, str).0.Good() ==> s.Good()
  {
    if !s.Good() {
      NotGoodStays(e, s, str);
    }
  }

  /** A string read to the end was laid out as `StringBytes`. */
  lemma StringRead(e: Endian, s: In, str: ByteString)
    requires s.Good() && ReadingString(e, s, str).0.Good()
    ensures var (s', r) := ReadingString(e, s, str);
      |r| < TWO_TO_THE_32 && s.rest == StringBytes(e, r) + s'.rest
  {
    PowersOf256();
    ReadStringShort(e, s, str);
    var size := s.rest[..4];
    assert size + Memory(e, 0, 4)[4..] == size;
    MemoryOfFromMemory(e, size);
    var n := FromMemory(e, size);
    var r := s.rest[4..][..n];
    assert r + Resized(str, n)[n..] == r;
    assert r[..n] == r;
    assert s.rest == size + (r + s.rest[4..][n..]);
    Associate(size, r, s.rest[4..][n..]);
  }

  /** The bytes of `c`'s pairs, whatever the host. */
  function Weight(pairs: seq<Pair>): nat {
    if |pairs| == 0 then 0 else PairWeight(pairs[0].0, pairs[0].1) + Weight(pairs[1..])
  }

  function PairWeight(k: ByteString, v: ByteString): nat {
    8 + Low32(|k|) + Low32(|v|)
  }

  lemma {:induction false} PairsBytesWeight(e: Endian, pairs: seq<Pair>)
    ensures |PairsBytes(e, pairs)| == Weight(pairs)
  {
    if |pairs| != 0 {
      PairsBytesWeight(e, pairs[1..]);
      hide Memory, Low32;
    }
  }

  function MapWeight(m: Baggage): nat {
    Weight(Items<ByteString>(m))
  }

  lemma WeightStep(m: Baggage)
    requires m != map[]
    ensures var k := FirstKey(m.Keys);
      |m - {k}| < |m| && MapWeight(m) == PairWeight(k, m[k]) + MapWeight(m - {k})
  {
    hide PairWeight;
    ItemsStep<ByteString>(m);
  }

  lemma RemoveTwo(m: Baggage, j: ByteString, k: ByteString)
    ensures (m - {j}) - {k} == (m - {k}) - {j}
  {
  }

  lemma FirstOfRemoved(m: Baggage, k: ByteString)
    requires k in m && k != FirstKey(m.Keys)
    ensures m - {k} != map[] && FirstKey((m - {k}).Keys) == FirstKey(m.Keys)
  {
    var first := FirstKey(m.Keys);
    var small := m - {k};
    assert first in small;
    assert IsFirst(first, small.Keys);
    FirstUnique(first, FirstKey(small.Keys), small.Keys);
  }

  /** The weight of a map can be counted from any key. */
  lemma {:induction false} WeightFrom(m: Baggage, k: ByteString)
    requires k in m
    ensures MapWeight(m) == PairWeight(k, m[k]) + MapWeight(m - {k})
    decreases |m|
  {
    hide PairWeight, MapWeight, FirstKey, IsFirst;
    var first := FirstKey(m.Keys);
    WeightStep(m);
    if k != first {
      WeightFrom(m - {first}, k);
      RemoveTwo(m, first, k);
      FirstOfRemoved(m, k);
      WeightStep(m - {k});
    }
  }

  lemma WeightOfUpdate(m: Baggage, k: ByteString, v: ByteString)
    ensures MapWeight(m[k := v]) <= MapWeight(m) + PairWeight(k, v)
  {
    hide MapWeight, PairWeight;
    WeightFrom(m[k := v], k);
    if k in m {
      WeightFrom(m, k);
      assert m[k := v] - {k} == m - {k};
    } else {
      assert m[k := v] - {k} == m;
    }
  }

  /** Assigning pairs to a map never needs more room than the pairs. */
  lemma {:induction false} WeightOfAssignAll(m: Baggage, pairs: seq<Pair>)
    ensures MapWeight(AssignAll<ByteString>(m, pairs)) <= MapWeight(m) + Weight(pairs)
    decreases |pairs|
  {
    hide MapWeight, PairWeight;
    if |pairs| != 0 {
      WeightOfUpdate(m, pairs[0].0, pairs[0].1);
      WeightOfAssignAll(m[pairs[0].0 := pairs[0].1], pairs[1..]);
    }
  }

  /** The parts of any bytes that are long enough for a header. */
  lemma HeaderParts(bs: ByteString)
    requires |bs| >= 20
    ensures bs == bs[..8] + (bs[8..16] + (bs[16..20] + bs[20..]))
  {
    assert bs[16..] == bs[16..20] + bs[20..];
    assert bs[8..] == bs[8..16] + bs[16..];
    assert bs == bs[..8] + bs[8..];
  }

  /**
    What is accepted: after a full header, exactly the bytes of as many short
    pairs as the loop turns. The baggage is the last-wins map of these pairs.
   */
  lemma AcceptedIsPairs(e: Endian, bs: ByteString) returns (pairs: seq<Pair>)
    requires |bs| >= 20 && Extraction(e, Fresh(bs), EMPTY_CONTEXT).result == Ok(true)
    ensures var x := Extraction(e, Fresh(bs), EMPTY_CONTEXT);
      |pairs| == Turns(LittleValue(bs[16..20])) && ShortPairs(pairs) &&
      x.stream.Good() && bs == bs[..20] + (PairsBytes(e, pairs) + x.stream.rest) &&
      x.data.traceId == LittleValue(bs[..8]) && x.data.spanId == LittleValue(bs[8..16]) &&
      x.data.baggage == AssignAll<ByteString>(map[], pairs)
  {
    hide Extraction, LittleValue, ReadingPairs, PairsBytes, AssignAll;
    HeaderParts(bs);
    var n := Turns(LittleValue(bs[16..20]));
    var loop := ReadingPairs(e, Fresh(bs[20..]), n, map[], "", "");
    ExtractionOfBytes(e, bs[..8], bs[8..16], bs[16..20], bs[20..], EMPTY_CONTEXT, loop);
    pairs := PairsRead(e, Fresh(bs[20..]), n, map[], "", "", loop);
    assert bs == bs[..20] + bs[20..];
  }

  lemma PairsAccepted(e: Endian, header: ByteString, pairs: seq<Pair>, rest: ByteString)
    requires |header| == 20 && ShortPairs(pairs) && |pairs| == Turns(LittleValue(header[16..20]))
    ensures Extraction(e, Fresh(header + (PairsBytes(e, pairs) + rest)), EMPTY_CONTEXT).result == Ok(true)
  {
    hide Extraction, LittleValue, ReadingPairs, PairsBytes, AssignAll;
    var tail := PairsBytes(e, pairs) + rest;
    var bs := header + tail;
    HeaderParts(bs);
    assert bs[..8] == header[..8] && bs[8..16] == header[8..16] && bs[16..20] == header[16..20] && bs[20..] == tail;
    ReadPairsOfBytes(e, pairs, rest, map[], "", "");
    ExtractionOfBytes(e, bs[..8], bs[8..16], bs[16..20], tail, EMPTY_CONTEXT,
                      ReadingPairs(e, Fresh(tail), |pairs|, map[], "", ""));
  }

  /**
    Normal form: injecting what was extracted never needs more bytes than were
    consumed, and extracting that again gives the same context.
   */
  lemma NormalForm(e: Endian, bs: ByteString)
    requires |bs| >= 20 && Extraction(e, Fresh(bs), EMPTY_CONTEXT).result == Ok(true)
    ensures var x := Extraction(e, Fresh(bs), EMPTY_CONTEXT);
      |Encoding(e, x.data)| <= |bs| - |x.stream.rest| &&
      Extraction(e, Fresh(Encoding(e, x.data)), EMPTY_CONTEXT) == Extracted(Fresh(""), x.data, Ok(true))
  {
    hide *;
    var x := Extraction(e, Fresh(bs), EMPTY_CONTEXT);
    var pairs := AcceptedIsPairs(e, bs);
    ExtractionFits(e, Fresh(bs));
    WeightOfAssignAll(map[], pairs);
    NoWeight();
    PairsBytesWeight(e, pairs);
    EncodingWeight(e, x.data);
    RoundTripFromEmpty(e, x.data, "");
    assert Encoding(e, x.data) + "" == Encoding(e, x.data);
  }

  lemma EncodingWeight(e: Endian, c: SpanContextData)
    ensures |Encoding(e, c)| == 20 + MapWeight(c.baggage)
  {
    PairsBytesWeight(e, Items<ByteString>(c.baggage));
    hide PairsBytes;
  }

  lemma NoWeight()
    ensures MapWeight(map[]) == 0
  {
  }

  // ---------- Maps and their pairs ----------

  /** Where no assignment overwrites another, every pair is still there at the end. */
  lemma {:induction false} AssignedOnce(m: Baggage, pairs: seq<Pair>)
    requires |AssignAll<ByteString>(m, pairs)| == |m| + |pairs|
    ensures var r := AssignAll<ByteString>(m, pairs);
      (forall k :: k in m ==> k in r && r[k] == m[k]) &&
      forall i :: 0 <= i < |pairs| ==> pairs[i].0 in r && r[pairs[i].0] == pairs[i].1
    decreases |pairs|
  {
    if |pairs| > 0 {
      var p, others := pairs[0], pairs[1..];
      AssignAllKeys<ByteString>(m[p.0 := p.1], others);
      assert m[p.0 := p.1].Keys == m.Keys + {p.0};
      assert |m[p.0 := p.1].Keys| == |m[p.0 := p.1]| && |m.Keys| == |m|;
      AssignedOnce(m[p.0 := p.1], others);
      assert forall i :: 0 < i < |pairs| ==> pairs[i] == others[i - 1];
    }
  }

  lemma HeaderCount(e: Endian, c: SpanContextData)
    requires |c.baggage| < TWO_TO_THE_31
    ensures LittleValue(Encoding(e, c)[16..20]) == |c.baggage|
  {
    PowersOf256();
    LittleValueOfLittleEndian(|c.baggage|, 4);
    assert Encoding(e, c)[16..20] == LittleEndian(|c.baggage|, 4);
  }

  lemma BaggageIsItem(m: Baggage, k: ByteString)
    requires k in m
    ensures exists i :: 0 <= i < |Items<ByteString>(m)| && Items<ByteString>(m)[i] == (k, m[k])
  {
    ItemsDetermineMap<ByteString>(m);
    AssignAllKeys<ByteString>(map[], Items<ByteString>(m));
  }

  lemma OneItem(k: ByteString, v: ByteString)
    ensures Items<ByteString>(map[k := v]) == [(k, v)]
  {
    var m := map[k := v];
    assert k in m && m != map[];
    assert FirstKey(m.Keys) == k;
    ItemsStep<ByteString>(m);
    assert m - {k} == map[];
  }
}
