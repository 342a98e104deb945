/** Contexts that travel between hosts of different byte order. */
module ByteOrder {
  import opened Wrappers
  import opened Errors
  import opened Bytes
  import opened Seqs
  import opened StdMap
  import opened Streams
  import opened SpanData
  import opened Wire
  import opened WireLaws

  /** The size fields that read the same in both byte orders. */
  predicate Palindromic(n: nat) {
    Low32(n) == n && Memory(Little, n, 4) == Memory(Big, n, 4)
  }

  predicate PalindromicSizes(c: SpanContextData) {
    forall k :: k in c.baggage ==> Palindromic(|k|) && Palindromic(|c.baggage[k]|)
  }

  lemma {:induction false} PairsBytesPalindromic(e1: Endian, e2: Endian, pairs: seq<Pair>)
    requires forall i :: 0 <= i < |pairs| ==> Palindromic(|pairs[i].0|) && Palindromic(|pairs[i].1|)
    ensures PairsBytes(e1, pairs) == PairsBytes(e2, pairs)
  {
    hide Low32, Memory;
    if |pairs| != 0 {
      PairsBytesPalindromic(e1, e2, pairs[1..]);
      PairBytesPalindromic(e1, e2, pairs[0]);
    }
  }

  lemma PairBytesPalindromic(e1: Endian, e2: Endian, p: Pair)
    requires Palindromic(|p.0|) && Palindromic(|p.1|)
    ensures PairBytes(e1, p) == PairBytes(e2, p)
  {
    hide LittleEndian, LittleValue, Reverse;
  }

  /**
    Between hosts of different byte order the round trip holds when every size
    field reads the same in both orders, in particular for empty baggage.
   */
  lemma CrossEndianRoundTrip(e1: Endian, e2: Endian, c: SpanContextData, rest: ByteString)
    requires Fits(c) && PalindromicSizes(c)
    ensures Extraction(e2, Fresh(Encoding(e1, c) + rest), EMPTY_CONTEXT) == Extracted(Fresh(rest), c, Ok(true))
  {
    var items := Items<ByteString>(c.baggage);
    forall i | 0 <= i < |items|
      ensures Palindromic(|items[i].0|) && Palindromic(|items[i].1|)
    {
      ItemsInMap<ByteString>(c.baggage, i);
    }
    hide Extraction, PairsBytes, Palindromic, Header;
    PairsBytesPalindromic(e1, e2, items);
    RoundTripFromEmpty(e2, c, rest);
  }

  lemma SmallBytes(n: nat)
    requires n < 0x10000
    ensures LittleEndian(n, 4) == [(n % 256) as char, (n / 256) as char, '\0', '\0']
  {
    assert LittleEndian(0, 2) == ['\0', '\0'] by { assert LittleEndian(0, 1) == ['\0']; }
    assert LittleEndian(n / 256, 3) == [(n / 256) as char] + LittleEndian(0, 2);
  }

  lemma FourBytes(a: Byte, b: Byte, c: Byte, d: Byte)
    ensures LittleValue([a, b, c, d]) == a as int + 256 * (b as int + 256 * (c as int + 256 * (d as int)))
    ensures Reverse([a, b, c, d]) == [d, c, b, a]
  {
    assert [a, b, c, d][1..] == [b, c, d] && [b, c, d][1..] == [c, d] && [c, d][1..] == [d] && [d][1..] == "";
    assert LittleValue([d]) == d as int;
    assert LittleValue([c, d]) == c as int + 256 * LittleValue([d]);
    assert LittleValue([b, c, d]) == b as int + 256 * LittleValue([c, d]);
  }

  /** A small size that is not zero is read as at least 65536 on a host of the other byte order. */
  lemma SwappedSize(e1: Endian, e2: Endian, n: nat)
    requires e1 != e2 && n < 0x10000
    ensures n > 0 ==> FromMemory(e2, Memory(e1, n, 4)) >= 0x10000
    ensures Palindromic(n) <==> n == 0
  {
    hide LittleEndian, LittleValue, Reverse;
    SmallBytes(n);
    FourBytes((n % 256) as char, (n / 256) as char, '\0', '\0');
    FourBytes('\0', '\0', (n / 256) as char, (n % 256) as char);
    assert Low32(n) == n;
    assert Memory(Little, n, 4)[2..] == "\0\0" && Memory(Big, n, 4)[..2] == "\0\0";
  }

  /** So the string is not there. */
  lemma ReadSwappedString(e1: Endian, e2: Endian, s: ByteString, rest: ByteString, str: ByteString)
    requires e1 != e2 && 0 < |s| < TWO_TO_THE_32 && |StringBytes(e1, s) + rest| < 0x10000
    ensures !ReadingString(e2, Fresh(StringBytes(e1, s) + rest), str).0.Good()
  {
    hide Memory, FromMemory;
    SwappedSize(e1, e2, |s|);
    assert s[..|s|] == s;
    Associate(Memory(e1, |s|, 4), s, rest);
    ReadShortString(e2, Memory(e1, |s|, 4), s + rest, str);
  }

  lemma ReadShortString(e: Endian, size: ByteString, body: ByteString, str: ByteString)
    requires |size| == 4 && |body| < FromMemory(e, size)
    ensures !ReadingString(e, Fresh(size + body), str).0.Good()
  {
    hide Memory, FromMemory;
    assert (size + body)[..4] == size && (size + body)[4..] == body;
    assert size + Memory(e, 0, 4)[4..] == size;
  }

  lemma {:induction false} ReadSwappedPairs(
      e1: Endian, e2: Endian, pairs: seq<Pair>, baggage: Baggage, key: ByteString, value: ByteString)
    requires e1 != e2 && |PairsBytes(e1, pairs)| < 0x10000 && ShortPairs(pairs)
    requires exists i :: 0 <= i < |pairs| && pairs[i] != ("", "")
    ensures !ReadingPairs(e2, Fresh(PairsBytes(e1, pairs)), |pairs|, baggage, key, value).good
    decreases |pairs|
  {
    hide ReadingPairs, ReadingString, StringBytes, Memory;
    var p, others := pairs[0], pairs[1..];
    var tail := PairsBytes(e1, others);
    if p == ("", "") {
      EmptyPairBytes(e1, e2);
      ReadFirstPair(e2, p, tail, |pairs|, baggage, key, value);
      ReadSwappedPairs(e1, e2, others, baggage[p.0 := p.1], p.0, p.1);
    } else {
      ReadSwappedPair(e1, e2, p, tail, key, value);
      var (s1, k) := ReadingString(e2, Fresh(PairBytes(e1, p) + tail), key);
      var (s2, v) := ReadingString(e2, s1, value);
      PairStep(e2, Fresh(PairBytes(e1, p) + tail), |pairs|, baggage, key, value, s1, k, s2, v);
    }
  }

  lemma EmptyPairBytes(e1: Endian, e2: Endian)
    ensures PairBytes(e1, ("", "")) == PairBytes(e2, ("", ""))
  {
    ZeroMemory(e1, 4);
    ZeroMemory(e2, 4);
    hide Memory;
  }

  lemma ReadSwappedPair(e1: Endian, e2: Endian, p: Pair, tail: ByteString, key: ByteString, value: ByteString)
    requires e1 != e2 && p != ("", "") && |PairBytes(e1, p) + tail| < 0x10000
    requires |p.0| < TWO_TO_THE_32 && |p.1| < TWO_TO_THE_32
    ensures var s1 := ReadingString(e2, Fresh(PairBytes(e1, p) + tail), key).0;
      !ReadingString(e2, s1, value).0.Good()
  {
    hide ReadingString, Memory;
    Associate(StringBytes(e1, p.0), StringBytes(e1, p.1), tail);
    if p.0 != "" {
      ReadSwappedString(e1, e2, p.0, StringBytes(e1, p.1) + tail, key);
      NotGoodStays(e2, ReadingString(e2, Fresh(PairBytes(e1, p) + tail), key).0, value);
    } else {
      ZeroMemory(e1, 4);
      ZeroMemory(e2, 4);
      ReadStringOfBytes(e2, "", StringBytes(e1, p.1) + tail, key);
      ReadSwappedString(e1, e2, p.1, tail, value);
    }
  }

  /** In an encoding below 65536 bytes the first string that holds a byte is read past the end. */
  lemma CrossEndianFails(e1: Endian, e2: Endian, c: SpanContextData)
    requires e1 != e2 && Fits(c) && |Encoding(e1, c)| < 0x10000 && !NoBytes(c)
    ensures Extraction(e2, Fresh(Encoding(e1, c)), EMPTY_CONTEXT).result == Err(IO_ERROR)
  {
    hide Extraction, PairsBytes, Header, ReadingPairs;
    var items := Items<ByteString>(c.baggage);
    FitsShortItems(c);
    SomeByte(c);
    ReadSwappedPairs(e1, e2, items, map[], "", "");
    var loop := ReadingPairs(e2, Fresh(PairsBytes(e1, items)), |items|, map[], "", "");
    ExtractionAfterHeader(e2, c, PairsBytes(e1, items), EMPTY_CONTEXT, |items|, loop);
  }

  /** No key and no value holds a byte. */
  predicate NoBytes(c: SpanContextData) {
    forall k :: k in c.baggage ==> k == "" && c.baggage[k] == ""
  }

  lemma SomeByte(c: SpanContextData)
    requires !NoBytes(c)
    ensures exists i :: 0 <= i < |Items<ByteString>(c.baggage)| && Items<ByteString>(c.baggage)[i] != ("", "")
  {
    var k :| k in c.baggage && (k != "" || c.baggage[k] != "");
    BaggageIsItem(c.baggage, k);
  }

  // ---------- Exactly ----------

  predicate Survives(e1: Endian, e2: Endian, c: SpanContextData) {
    var x := Extraction(e2, Fresh(Encoding(e1, c)), EMPTY_CONTEXT);
    x.data == c && x.result == Ok(true)
  }

  /** The pairs of a context's baggage in some order, laid out on the reading host as the writing host laid them out. */
  predicate LaidOutAlike(e1: Endian, e2: Endian, c: SpanContextData, pairs: seq<Pair>) {
    |pairs| == |c.baggage| && AssignAll<ByteString>(map[], pairs) == c.baggage &&
    PairsBytes(e2, pairs) == PairsBytes(e1, Items<ByteString>(c.baggage))
  }

  /** What was read, where the context survived. */
  lemma PairsOfSurvivor(e1: Endian, e2: Endian, c: SpanContextData) returns (pairs: seq<Pair>)
    requires Fits(c) && Survives(e1, e2, c)
    ensures LaidOutAlike(e1, e2, c, pairs)
  {
    hide Extraction, PairsBytes, AssignAll, Items, Header, LittleValue;
    var bs, items := Encoding(e1, c), Items<ByteString>(c.baggage);
    assert bs[..20] == Header(c) && bs[20..] == PairsBytes(e1, items);
    pairs := AcceptedIsPairs(e2, bs);
    var rest := Extraction(e2, Fresh(bs), EMPTY_CONTEXT).stream.rest;
    HeaderCount(e1, c);
    assert (bs[..20] + (PairsBytes(e2, pairs) + rest))[20..] == PairsBytes(e2, pairs) + rest;
    WeightOfAssignAll(map[], pairs);
    NoWeight();
    PairsBytesWeight(e2, pairs);
    PairsBytesWeight(e1, items);
    assert rest == "";
  }

  lemma SurvivesLaidOut(e1: Endian, e2: Endian, c: SpanContextData, pairs: seq<Pair>)
    requires Fits(c) && LaidOutAlike(e1, e2, c, pairs)
    ensures Survives(e1, e2, c)
  {
    hide Extraction, PairsBytes, AssignAll, Items, Header, ReadingPairs;
    AssignedOnce(map[], pairs);
    ReadPairsOfBytes(e2, pairs, "", map[], "", "");
    var bytes := PairsBytes(e2, pairs);
    assert bytes + "" == bytes;
    ExtractionAfterHeader(e2, c, bytes, EMPTY_CONTEXT, |pairs|, Loop(Fresh(""), c.baggage, true));
  }

  /** Exactly when a context survives between two hosts, for every context that the wire form holds. */
  lemma SurvivesExactly(e1: Endian, e2: Endian, c: SpanContextData)
    requires Fits(c)
    ensures Survives(e1, e2, c) <==> exists pairs :: LaidOutAlike(e1, e2, c, pairs)
  {
    hide Survives, LaidOutAlike;
    if Survives(e1, e2, c) {
      var pairs := PairsOfSurvivor(e1, e2, c);
    } else if exists pairs :: LaidOutAlike(e1, e2, c, pairs) {
      var pairs :| LaidOutAlike(e1, e2, c, pairs);
      SurvivesLaidOut(e1, e2, c, pairs);
    }
  }

  // ---------- By the sizes alone ----------

  ghost predicate HasSize(b: Baggage, n: nat) {
    exists k :: k in b && (|k| == n || |b[k]| == n)
  }

  /** No two strings have different sizes that are each other's byte reversal. */
  ghost predicate NoMirrors(c: SpanContextData) {
    forall m: nat, n: nat :: HasSize(c.baggage, m) && HasSize(c.baggage, n) && n == Swapped(m, 4) ==> m == n
  }

  lemma PalindromicSwapped(n: nat)
    requires n < TWO_TO_THE_32
    ensures Palindromic(n) <==> Swapped(n, 4) == n
  {
    PowersOf256();
    var little := LittleEndian(n, 4);
    LittleValueOfLittleEndian(n, 4);
    LittleEndianOfLittleValue(Reverse(little));
  }

  /** Two strings laid out for different byte orders start alike only if their sizes are mirrored. */
  lemma StartAlike(e1: Endian, e2: Endian, s: ByteString, t: ByteString, a: ByteString, b: ByteString)
    requires e1 != e2 && |s| < TWO_TO_THE_32 && |t| < TWO_TO_THE_32
    requires StringBytes(e1, s) + a == StringBytes(e2, t) + b
    ensures |t| == Swapped(|s|, 4)
    ensures |s| == |t| ==> Palindromic(|s|) && a == b
  {
    var x, y := StringBytes(e1, s) + a, StringBytes(e2, t) + b;
    assert x[..4] == Memory(e1, |s|, 4) && y[..4] == Memory(e2, |t|, 4);
    PowersOf256();
    FromMemoryOfMemory(e2, |t|, 4);
    PalindromicSwapped(|s|);
    hide LittleEndian, LittleValue, Reverse, Palindromic;
    if |s| == |t| {
      assert x[4 + |s|..] == a && y[4 + |t|..] == b;
    }
  }

  predicate SizesOf(b: Baggage, pairs: seq<Pair>) {
    forall i :: 0 <= i < |pairs| ==> pairs[i].0 in b && b[pairs[i].0] == pairs[i].1
  }

  lemma PairAlike(e1: Endian, e2: Endian, c: SpanContextData, p: Pair, q: Pair, a: ByteString, b: ByteString)
    requires e1 != e2 && Fits(c) && NoMirrors(c) && SizesOf(c.baggage, [p, q])
    requires PairBytes(e1, p) + a == PairBytes(e2, q) + b
    ensures Palindromic(|p.0|) && Palindromic(|p.1|) && a == b
  {
    hide StringBytes, Palindromic, Swapped;
    assert [p, q][0] == p && [p, q][1] == q;
    assert HasSize(c.baggage, |p.0|) && HasSize(c.baggage, |p.1|);
    assert HasSize(c.baggage, |q.0|) && HasSize(c.baggage, |q.1|);
    Associate(StringBytes(e1, p.0), StringBytes(e1, p.1), a);
    Associate(StringBytes(e2, q.0), StringBytes(e2, q.1), b);
    StartAlike(e1, e2, p.0, q.0, StringBytes(e1, p.1) + a, StringBytes(e2, q.1) + b);
    StartAlike(e1, e2, p.1, q.1, a, b);
  }

  lemma {:induction false} PairsAlike(e1: Endian, e2: Endian, c: SpanContextData, items: seq<Pair>, pairs: seq<Pair>)
    requires e1 != e2 && Fits(c) && NoMirrors(c) && SizesOf(c.baggage, items) && SizesOf(c.baggage, pairs)
    requires |items| == |pairs| && PairsBytes(e1, items) == PairsBytes(e2, pairs)
    ensures forall i :: 0 <= i < |items| ==> Palindromic(|items[i].0|) && Palindromic(|items[i].1|)
  {
    hide PairBytes, Palindromic, NoMirrors, Fits;
    if |items| > 0 {
      var p, q := items[0], pairs[0];
      assert SizesOf(c.baggage, [p, q]);
      PairAlike(e1, e2, c, p, q, PairsBytes(e1, items[1..]), PairsBytes(e2, pairs[1..]));
      PairsAlike(e1, e2, c, items[1..], pairs[1..]);
      assert forall i :: 0 < i < |items| ==> items[i] == items[1..][i - 1];
    }
  }

  /**
    Where no two sizes are mirrored, a context survives between hosts of different
    byte order exactly when every size reads the same both ways.
   */
  lemma SurvivesBySizes(e1: Endian, e2: Endian, c: SpanContextData)
    requires e1 != e2 && Fits(c) && NoMirrors(c)
    ensures Survives(e1, e2, c) <==> PalindromicSizes(c)
  {
    hide Extraction, Encoding, Palindromic, PairsBytes, Items, NoMirrors;
    if PalindromicSizes(c) {
      CrossEndianRoundTrip(e1, e2, c, "");
      assert Encoding(e1, c) + "" == Encoding(e1, c);
    } else if Survives(e1, e2, c) {
      var items := Items<ByteString>(c.baggage);
      var pairs := PairsOfSurvivor(e1, e2, c);
      AssignedOnce(map[], pairs);
      forall i | 0 <= i < |items| ensures items[i].0 in c.baggage && c.baggage[items[i].0] == items[i].1 {
        ItemsInMap<ByteString>(c.baggage, i);
      }
      PairsAlike(e1, e2, c, items, pairs);
      forall k | k in c.baggage ensures Palindromic(|k|) && Palindromic(|c.baggage[k]|) {
        BaggageIsItem(c.baggage, k);
      }
    }
  }

  lemma SmallSizes(e1: Endian, e2: Endian, c: SpanContextData)
    requires forall k :: k in c.baggage ==> |k| < 0x10000 && |c.baggage[k]| < 0x10000
    ensures NoMirrors(c) && (PalindromicSizes(c) <==> NoBytes(c))
  {
    hide Palindromic, Swapped;
    forall m: nat, n: nat | HasSize(c.baggage, m) && HasSize(c.baggage, n) && n == Swapped(m, 4) ensures m == n {
      SmallSwapped(m);
    }
    forall k | k in c.baggage
      ensures Palindromic(|k|) <==> k == ""
      ensures Palindromic(|c.baggage[k]|) <==> c.baggage[k] == ""
    {
      SmallSwapped(|k|);
      SmallSwapped(|c.baggage[k]|);
    }
  }

  lemma SmallSwapped(n: nat)
    requires n < 0x10000
    ensures n > 0 ==> Swapped(n, 4) >= 0x10000
    ensures n == 0 ==> Swapped(n, 4) == 0
    ensures Palindromic(n) <==> n == 0
  {
    SwappedSize(Little, Big, n);
    PalindromicSwapped(n);
  }

  /**
    For keys and values below 65536 bytes each and any number of them, a context
    survives between hosts of different byte order exactly when no key and no
    value holds a byte.
   */
  lemma CrossEndianExactly(e1: Endian, e2: Endian, c: SpanContextData)
    requires e1 != e2 && |c.baggage| < TWO_TO_THE_31
    requires forall k :: k in c.baggage ==> |k| < 0x10000 && |c.baggage[k]| < 0x10000
    ensures Survives(e1, e2, c) <==> NoBytes(c)
  {
    hide Survives, PalindromicSizes, NoBytes, NoMirrors;
    SmallSizes(e1, e2, c);
    SurvivesBySizes(e1, e2, c);
  }

  // ---------- Mirrored sizes ----------

  lemma MirroredSizes(e: Endian)
    ensures Memory(Little, 0x8080, 4) == Memory(Big, 0x8080_0000, 4)
    ensures Memory(Big, 0x8080, 4) == Memory(Little, 0x8080_0000, 4)
    ensures Memory(Little, 0x807F_7F80, 4) == Memory(Big, 0x807F_7F80, 4)
    ensures Memory(Little, 0x8080, 4) != Memory(Big, 0x8080, 4)
  {
    var x, y := 0x80 as char, 0x7F as char;
    FourDigits(0x8080, x, x, '\0', '\0');
    FourDigits(0x8080_0000, '\0', '\0', x, x);
    FourDigits(0x807F_7F80, x, y, y, x);
    FourBytes(x, x, '\0', '\0');
    FourBytes('\0', '\0', x, x);
    FourBytes(x, y, y, x);
    assert [x, x, '\0', '\0'][0] != ['\0', '\0', x, x][0];
  }

  lemma FourDigits(n: nat, a: Byte, b: Byte, c: Byte, d: Byte)
    requires n == a as int + 256 * (b as int + 256 * (c as int + 256 * (d as int)))
    ensures LittleEndian(n, 4) == [a, b, c, d]
  {
    FourBytes(a, b, c, d);
    LittleEndianOfLittleValue([a, b, c, d]);
  }

  lemma {:induction false} PrefixLess(a: ByteString, b: ByteString)
    requires |b| > 0
    ensures Less(a, a + b)
  {
    if |a| > 0 {
      PrefixLess(a[1..], b);
      assert (a + b)[1..] == a[1..] + b;
    } else {
      assert a + b == b;
    }
  }

  lemma TwoItems(j: ByteString, v: ByteString, k: ByteString, w: ByteString)
    requires Less(j, k)
    ensures Items<ByteString>(map[j := v, k := w]) == [(j, v), (k, w)]
  {
    var m := map[j := v, k := w];
    LessAsymmetric(j, k);
    assert j != k;
    assert m.Keys == {j, k};
    assert IsFirst(j, m.Keys);
    FirstUnique(j, FirstKey(m.Keys), m.Keys);
    ItemsStep<ByteString>(m);
    assert m - {j} == map[k := w];
    OneItem(k, w);
    hide Items;
    var items := Items<ByteString>(m);
    assert items == [items[0]] + items[1..];
  }

  /** Two pairs of which each is read as the other. */
  function Mirror(k: ByteString, z: ByteString): Baggage {
    map[k := z + "\0\0\0\0", k + (Memory(Little, 0x807F_7F80, 4) + z) := ""]
  }

  /**
    Where sizes are mirrored, a context may survive although they do not read the
    same both ways: the strings of two pairs hold the bytes of each other.
   */
  lemma MirroredSurvives(e1: Endian, e2: Endian, traceId: UInt64, spanId: UInt64, k: ByteString, z: ByteString)
    requires e1 != e2 && |k| == 0x8080 && |z| == 0x807F_7F7C
    ensures var c := SpanContextData(traceId, spanId, Mirror(k, z));
      Fits(c) && Survives(e1, e2, c) && !PalindromicSizes(c)
  {
    hide Extraction, Encoding, Survives, PairsBytes, Memory, LittleEndian, Reverse, LittleValue, Items;
    var c := SpanContextData(traceId, spanId, Mirror(k, z));
    var b := Memory(Little, 0x807F_7F80, 4);
    var v, k' := z + "\0\0\0\0", k + (b + z);
    MirroredSizes(e1);
    PrefixLess(k, b + z);
    TwoItems(k, v, k', "");
    LessAsymmetric(k, k');
    assert k != k' && c.baggage.Keys == {k, k'} && |c.baggage| == 2;
    var pairs := [(k', ""), (k, v)];
    assert AssignAll<ByteString>(map[], pairs) == c.baggage by { AssignTwo(k', "", k, v); }
    MirrorBytes(e1, e2, k, z, b);
    SurvivesLaidOut(e1, e2, c, pairs);
    assert k in c.baggage;
  }

  lemma AssignTwo(j: ByteString, v: ByteString, k: ByteString, w: ByteString)
    requires j != k
    ensures AssignAll<ByteString>(map[], [(j, v), (k, w)]) == map[k := w, j := v]
  {
    var m: Baggage := map[];
    assert [(j, v), (k, w)][1..] == [(k, w)] && [(k, w)][1..] == [];
    assert AssignAll<ByteString>(m[j := v], [(k, w)]) == m[j := v][k := w];
    assert m[j := v][k := w] == map[k := w, j := v];
  }

  lemma TwoPairsBytes(e: Endian, p: Pair, q: Pair)
    ensures PairsBytes(e, [p, q]) == PairBytes(e, p) + PairBytes(e, q)
  {
    hide PairBytes;
    assert [p, q][1..] == [q] && [q][1..] == [];
    assert PairsBytes(e, [q]) == PairBytes(e, q) + "";
  }

  lemma MirrorBytes(e1: Endian, e2: Endian, k: ByteString, z: ByteString, b: ByteString)
    requires e1 != e2 && |k| == 0x8080 && |z| == 0x807F_7F7C && b == Memory(Little, 0x807F_7F80, 4)
    ensures var v, k' := z + "\0\0\0\0", k + (b + z);
      PairsBytes(e1, [(k, v), (k', "")]) == PairsBytes(e2, [(k', ""), (k, v)])
  {
    hide Memory, PairBytes, PairsBytes, StringBytes;
    var zeros := "\0\0\0\0";
    var v, k' := z + zeros, k + (b + z);
    MirroredSizes(e1);
    var m, n := Memory(e1, 0x8080, 4), Memory(e1, 0x8080_0000, 4);
    TwoPairsBytes(e1, (k, v), (k', ""));
    TwoPairsBytes(e2, (k', ""), (k, v));
    StringLayout(e1, k, m);
    StringLayout(e1, v, b);
    StringLayout(e1, k', n);
    StringLayout(e2, k', m);
    StringLayout(e2, k, n);
    StringLayout(e2, v, b);
    EmptyLayout(e1);
    EmptyLayout(e2);
    PairLayout(e1, k, v, m, b);
    PairLayout(e1, k', "", n, zeros);
    PairLayout(e2, k', "", m, zeros);
    PairLayout(e2, k, v, n, b);
    Shuffle(m, k, b, z, zeros, n);
  }

  lemma StringLayout(e: Endian, s: ByteString, size: ByteString)
    requires |s| < TWO_TO_THE_32 && size == Memory(e, |s|, 4)
    ensures StringBytes(e, s) == size + s
  {
    hide Memory;
    assert s[..|s|] == s;
  }

  lemma EmptyLayout(e: Endian)
    ensures StringBytes(e, "") == "\0\0\0\0" + ""
  {
    ZeroMemory(e, 4);
    assert Zeros(4) == "\0\0\0\0";
    hide Memory;
  }

  lemma PairLayout(e: Endian, k: ByteString, v: ByteString, m: ByteString, n: ByteString)
    requires StringBytes(e, k) == m + k && StringBytes(e, v) == n + v
    ensures PairBytes(e, (k, v)) == (m + k) + (n + v)
  {
  }

  lemma Shuffle(m: ByteString, k: ByteString, b: ByteString, z: ByteString, zeros: ByteString, n: ByteString)
    ensures ((m + k) + (b + (z + zeros))) + ((n + (k + (b + z))) + (zeros + ""))
      == ((m + (k + (b + z))) + (zeros + "")) + ((n + k) + (b + (z + zeros)))
  {
    assert zeros + "" == zeros;
    var w := k + (b + z);
    ShuffleHalf(m, k, b, z, zeros);
    ShuffleHalf(n, k, b, z, zeros);
  }

  lemma ShuffleHalf(m: ByteString, k: ByteString, b: ByteString, z: ByteString, zeros: ByteString)
    ensures (m + k) + (b + (z + zeros)) == (m + (k + (b + z))) + zeros
  {
    Associate(b, z, zeros);
    Associate(m, k, b + z);
    Associate(m + k, b + z, zeros);
  }

  /** One key of one byte is enough. */
  lemma CrossEndianFailsAt(e1: Endian, e2: Endian)
    requires e1 != e2
    ensures var c := SpanContextData(1, 2, map["a" := ""]);
      Extraction(e2, Fresh(Encoding(e1, c)), EMPTY_CONTEXT).result == Err(IO_ERROR)
  {
    hide Extraction, Header;
    var c := SpanContextData(1, 2, map["a" := ""]);
    assert "a" in c.baggage;
    OneItem("a", "");
    CrossEndianFails(e1, e2, c);
  }
}
