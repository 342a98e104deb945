/**
  The binary form of a span context: the stream overloads of
  `InjectSpanContext` and `ExtractSpanContext` in mocktracer/src/propagation.cpp.

  Identifiers and the item count travel in little-endian order; string sizes in
  the byte order of the host that wrote them.
 */
module Wire {
  import opened Wrappers
  import opened Errors
  import opened Bytes
  import opened Seqs
  import opened StdMap
  import opened Streams
  import opened SpanData

  type Pair = (ByteString, ByteString)

  // ---------- Layout ----------

  /** `static_cast<uint32_t>`. */
  function Low32(n: nat): (r: UInt32)
    ensures n < 0x1_0000_0000 ==> r == n
  {
    n % 0x1_0000_0000
  }

  /** Size, cut to 32 bits, then as many bytes. */
  function StringBytes(e: Endian, s: ByteString): ByteString {
    Memory(e, Low32(|s|), 4) + s[..Low32(|s|)]
  }

  function PairBytes(e: Endian, p: Pair): ByteString {
    StringBytes(e, p.0) + StringBytes(e, p.1)
  }

  function PairsBytes(e: Endian, pairs: seq<Pair>): ByteString {
    if |pairs| == 0 then "" else PairBytes(e, pairs[0]) + PairsBytes(e, pairs[1..])
  }

  function Header(c: SpanContextData): (bytes: ByteString)
    ensures |bytes| == 20
  {
    LittleEndian(c.traceId, 8) + LittleEndian(c.spanId, 8) + LittleEndian(Low32(|c.baggage|), 4)
  }

  function Encoding(e: Endian, c: SpanContextData): ByteString {
    Header(c) + PairsBytes(e, Items<ByteString>(c.baggage))
  }

  /** The contexts whose sizes survive the 32-bit size fields and the `int` loop counter. */
  predicate Fits(c: SpanContextData) {
    |c.baggage| < TWO_TO_THE_31 &&
    forall k :: k in c.baggage ==> |k| < TWO_TO_THE_32 && |c.baggage[k]| < TWO_TO_THE_32
  }

  predicate ShortPairs(pairs: seq<Pair>) {
    forall i :: 0 <= i < |pairs| ==> |pairs[i].0| < TWO_TO_THE_32 && |pairs[i].1| < TWO_TO_THE_32
  }

  lemma {:induction false} PairsBytesAppend(e: Endian, a: seq<Pair>, b: seq<Pair>)
    ensures PairsBytes(e, a + b) == PairsBytes(e, a) + PairsBytes(e, b)
  {
    hide PairBytes;
    if |a| == 0 {
      assert a + b == b;
    } else {
      var rest := PairsBytes(e, a[1..]);
      PairsBytesAppend(e, a[1..], b);
      assert (a + b)[0] == a[0] && (a + b)[1..] == a[1..] + b;
      assert PairsBytes(e, a + b) == PairBytes(e, a[0]) + (rest + PairsBytes(e, b));
      Associate(PairBytes(e, a[0]), rest, PairsBytes(e, b));
    }
  }

  lemma FitsShortItems(c: SpanContextData)
    requires Fits(c)
    ensures ShortPairs(Items<ByteString>(c.baggage))
  {
    forall i | 0 <= i < |Items<ByteString>(c.baggage)|
      ensures |Items<ByteString>(c.baggage)[i].0| < TWO_TO_THE_32 && |Items<ByteString>(c.baggage)[i].1| < TWO_TO_THE_32
    {
      ItemsInMap<ByteString>(c.baggage, i);
    }
  }

  // ---------- Injection ----------

  method WriteString(e: Endian, ostream: OStream, s: ByteString)
    requires ostream.Valid()
    modifies ostream
    ensures ostream.Valid() && ostream.State() == Put(old(ostream.State()), StringBytes(e, s))
  {
    var size := Low32(|s|);
    ostream.Write(Memory(e, size, 4));
    ostream.Write(s[..size]);
    PutPut(old(ostream.State()), Memory(e, size, 4), s[..size]);
  }

  /** The loop of injection over the baggage. */
  method WriteItems(e: Endian, carrier: OStream, items: seq<Pair>)
    requires carrier.Valid()
    modifies carrier
    ensures carrier.Valid() && carrier.State() == Put(old(carrier.State()), PairsBytes(e, items))
  {
    ghost var start := carrier.State();
    PutNothing(start);
    for i := 0 to |items|
      invariant carrier.Valid()
      invariant carrier.State() == Put(start, PairsBytes(e, items[..i]))
    {
      WriteString(e, carrier, items[i].0);
      WriteString(e, carrier, items[i].1);
      PutThree(start, PairsBytes(e, items[..i]), StringBytes(e, items[i].0), StringBytes(e, items[i].1));
      PrefixStep(e, items, i);
    }
    assert items[..|items|] == items;
  }

  /**
    Writes the encoding. It succeeds exactly when the stream was good and had
    room for all of it; otherwise a prefix has been written.
   */
  method InjectSpanContext(e: Endian, carrier: OStream, c: SpanContextData) returns (r: Result<Unit, ErrorCode>)
    requires carrier.Valid()
    modifies carrier
    ensures carrier.Valid() && carrier.State() == Put(old(carrier.State()), Encoding(e, c))
    ensures r == if old(carrier.good) && old(carrier.State()).Fits(Encoding(e, c)) then Ok(Unit) else Err(IO_ERROR)
  {
    ghost var start := carrier.State();
    PowersOf256();
    var traceId := SwapEndianIfBig(e, c.traceId, 8);
    carrier.Write(Memory(e, traceId, 8));
    var spanId := SwapEndianIfBig(e, c.spanId, 8);
    carrier.Write(Memory(e, spanId, 8));
    var count := SwapEndianIfBig(e, Low32(|c.baggage|), 4);
    carrier.Write(Memory(e, count, 4));
    PutThree(start, LittleEndian(c.traceId, 8), LittleEndian(c.spanId, 8), LittleEndian(Low32(|c.baggage|), 4));
    WriteItems(e, carrier, Items<ByteString>(c.baggage));
    PutPut(start, Header(c), PairsBytes(e, Items<ByteString>(c.baggage)));
    if !carrier.good {
      return Err(IO_ERROR);
    }
    r := Ok(Unit);
  }

  lemma PutThree(o: Out, a: ByteString, b: ByteString, c: ByteString)
    requires o.Valid()
    ensures Put(Put(Put(o, a), b), c) == Put(o, a + b + c)
  {
    PutPut(o, a, b);
    PutPut(o, a + b, c);
  }

  lemma PrefixStep(e: Endian, items: seq<Pair>, i: nat)
    requires i < |items|
    ensures PairsBytes(e, items[..i]) + StringBytes(e, items[i].0) + StringBytes(e, items[i].1)
      == PairsBytes(e, items[..i + 1])
  {
    assert items[..i + 1] == items[..i] + items[i..i + 1];
    PairsBytesAppend(e, items[..i], items[i..i + 1]);
    assert PairsBytes(e, items[i..i + 1][1..]) == "";
    var p, k, v := PairsBytes(e, items[..i]), StringBytes(e, items[i].0), StringBytes(e, items[i].1);
    assert p + k + v == p + (k + v);
  }

  // ---------- Extraction ----------

  /** Reading over the given memory: a short read leaves its tail as it was. */
  function ReadOver(s: In, memory: ByteString): (r: (In, ByteString))
    ensures |r.1| == |memory|
  {
    var (s', got) := Reading(s, |memory|);
    (s', got + memory[|got|..])
  }

  /** Reading an `n`-byte integer over `x` and converting it from little-endian order. */
  function ReadWord(e: Endian, s: In, x: nat, n: nat): (In, nat) {
    var (s', memory) := ReadOver(s, Memory(e, x, n));
    (s', LittleValue(memory))
  }

  function Resized(s: ByteString, n: nat): (r: ByteString)
    ensures |r| == n
  {
    if n <= |s| then s[..n] else s + Zeros(n - |s|)
  }

  /** Reading a size and a string of that size into `old`. */
  function ReadingString(e: Endian, s: In, str: ByteString): (In, ByteString) {
    var (s1, memory) := ReadOver(s, Memory(e, 0, 4));
    ReadOver(s1, Resized(str, FromMemory(e, memory)))
  }

  /** The outcome of the baggage loop with `n` turns to go. */
  datatype Loop = Loop(stream: In, baggage: map<ByteString, ByteString>, good: bool)

  function ReadingPairs(
      e: Endian, s: In, n: nat, baggage: map<ByteString, ByteString>, key: ByteString, value: ByteString): Loop
    decreases n
  {
    if n == 0 then Loop(s, baggage, true)
    else
      var (s1, k) := ReadingString(e, s, key);
      var (s2, v) := ReadingString(e, s1, value);
      if !s2.Good() then Loop(s2, baggage[k := v], false)
      else ReadingPairs(e, s2, n - 1, baggage[k := v], k, v)
  }

  /** The number of turns of `for (int i = 0; i < static_cast<int>(n); ++i)`. */
  function Turns(n: nat): nat {
    if n < TWO_TO_THE_31 then n else 0
  }

  /** The state of the stream and of the context afterwards, and the value returned. */
  datatype Extracted = Extracted(stream: In, data: SpanContextData, result: Result<bool, ErrorCode>)

  function Extraction(e: Endian, s: In, data: SpanContextData): Extracted {
    if !s.Good() then Extracted(s, data, Err(IO_ERROR))
    else if s.rest == "" then Extracted(s.(eof := true), data, Ok(false))
    else
      var (s1, traceId) := ReadWord(e, s, data.traceId, 8);
      var (s2, spanId) := ReadWord(e, s1, data.spanId, 8);
      var (s3, count) := ReadWord(e, s2, 0, 4);
      WordBounds(e, s, data.traceId, 8);
      WordBounds(e, s1, data.spanId, 8);
      var loop := ReadingPairs(e, s3, Turns(count), data.baggage, "", "");
      Extracted(loop.stream, SpanContextData(traceId, spanId, loop.baggage),
                if loop.good then Ok(true) else Err(IO_ERROR))
  }

  lemma WordBounds(e: Endian, s: In, x: nat, n: nat)
    ensures ReadWord(e, s, x, n).1 < Pow256(n)
    ensures Pow256(4) == 0x1_0000_0000 && Pow256(8) == 0x1_0000_0000_0000_0000
  {
    LittleValueBound(ReadOver(s, Memory(e, x, n)).1);
    PowersOf256();
  }

  method ReadString(e: Endian, istream: IStream, old_s: ByteString) returns (s: ByteString)
    requires istream.Valid()
    modifies istream
    ensures istream.Valid() && (istream.State(), s) == ReadingString(e, old(istream.State()), old_s)
  {
    var got := istream.Read(4);
    var size := FromMemory(e, got + Memory(e, 0, 4)[|got|..]);
    s := Resized(old_s, size);
    got := istream.Read(size);
    s := got + s[|got|..];
  }

  method ReadInteger(e: Endian, istream: IStream, x: nat, n: nat) returns (r: nat)
    requires istream.Valid() && x < Pow256(n)
    modifies istream
    ensures istream.Valid() && (istream.State(), r) == ReadWord(e, old(istream.State()), x, n)
    ensures r < Pow256(n)
  {
    WordBounds(e, istream.State(), x, n);
    var got := istream.Read(n);
    var memory := got + Memory(e, x, n)[|got|..];
    MemoryOfFromMemory(e, memory);
    SwappedValue(e, memory);
    r := SwapEndianIfBig(e, FromMemory(e, memory), n);
  }

  /** The loop of extraction; it leaves the stream's failure to be seen after each pair. */
  method ReadPairs(e: Endian, carrier: IStream, n: nat, baggage: map<ByteString, ByteString>)
    returns (baggage': map<ByteString, ByteString>, good: bool)
    requires carrier.Valid()
    modifies carrier
    ensures carrier.Valid()
    ensures Loop(carrier.State(), baggage', good) == ReadingPairs(e, old(carrier.State()), n, baggage, "", "")
  {
    hide ReadingString, ReadingPairs;
    baggage' := baggage;
    var key: ByteString, value: ByteString := "", "";
    ghost var left, stream := n, carrier.State();
    var i := 0;
    while i < n
      invariant carrier.Valid() && carrier.State() == stream && left == n - i >= 0
      invariant ReadingPairs(e, old(carrier.State()), n, baggage, "", "") ==
        ReadingPairs(e, stream, left, baggage', key, value)
    {
      ghost var k, v := key, value;
      key := ReadString(e, carrier, key);
      ghost var between := carrier.State();
      value := ReadString(e, carrier, value);
      PairStep(e, stream, left, baggage', k, v, between, key, carrier.State(), value);
      baggage' := baggage'[key := value];
      stream := carrier.State();
      if !carrier.Good() {
        return baggage', false;
      }
      i, left := i + 1, left - 1;
    }
    NoPairs(e, stream, baggage', key, value);
    good := true;
  }

  lemma NoPairs(e: Endian, s: In, baggage: map<ByteString, ByteString>, key: ByteString, value: ByteString)
    ensures ReadingPairs(e, s, 0, baggage, key, value) == Loop(s, baggage, true)
  {
  }

  lemma PairStep(
      e: Endian, s: In, n: nat, baggage: map<ByteString, ByteString>, key: ByteString, value: ByteString,
      s1: In, k: ByteString, s2: In, v: ByteString)
    requires n > 0 && (s1, k) == ReadingString(e, s, key) && (s2, v) == ReadingString(e, s1, value)
    ensures ReadingPairs(e, s, n, baggage, key, value) ==
      if s2.Good() then ReadingPairs(e, s2, n - 1, baggage[k := v], k, v) else Loop(s2, baggage[k := v], false)
  {
  }

  method ExtractSpanContext(e: Endian, carrier: IStream, data: SpanContextData)
    returns (data': SpanContextData, r: Result<bool, ErrorCode>)
    requires carrier.Valid()
    modifies carrier
    ensures carrier.Valid()
    ensures Extracted(carrier.State(), data', r) == Extraction(e, old(carrier.State()), data)
  {
    hide ReadWord, ReadingPairs;
    data' := data;
    if !carrier.Good() {
      return data', Err(IO_ERROR);
    }
    var next := carrier.Peek();
    if next == None {
      return data', Ok(false);
    }
    PowersOf256();
    var traceId := ReadInteger(e, carrier, data.traceId, 8);
    var spanId := ReadInteger(e, carrier, data.spanId, 8);
    var count := ReadInteger(e, carrier, 0, 4);
    var baggage, good := ReadPairs(e, carrier, Turns(count), data.baggage);
    data' := SpanContextData(traceId, spanId, baggage);
    if !good {
      return data', Err(IO_ERROR);
    }
    r := Ok(true);
  }
}
