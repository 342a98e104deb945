/**
  Text-map and HTTP-header carriers: the other overloads of `InjectSpanContext`
  and `ExtractSpanContext` in mocktracer/src/propagation.cpp.
 */
module TextMap {
  import opened Wrappers
  import opened Errors
  import opened Bytes
  import opened Streams
  import opened SpanData
  import Base64
  import Wire

  type Entry = (ByteString, ByteString)
  type Compare = (ByteString, ByteString) -> bool

  // ---------- Base64 of byte strings ----------

  /** The octet of a number, by counting: the solver knows bit vectors as numbers better than numbers as bit vectors. */
  function Octet(x: int): (o: bv8)
    requires 0 <= x < 256
    ensures o as int == x
  {
    if x == 0 then 0
    else
      var o := Octet(x - 1);
      OctetPlusOne(o);
      o + 1
  }

  lemma OctetPlusOne(o: bv8)
    requires o != 255
    ensures (o + 1) as int == o as int + 1
  {
  }

  lemma SameOctet(o: bv8, p: bv8)
    requires o as int == p as int
    ensures o == p
  {
  }

  function ToOctets(s: ByteString): (o: Base64.Octets)
    ensures |o| == |s|
  {
    seq(|s|, i requires 0 <= i < |s| => Octet(s[i] as int))
  }

  function FromOctets(o: Base64.Octets): (s: ByteString)
    ensures |s| == |o|
  {
    seq(|o|, i requires 0 <= i < |o| => o[i] as int as char)
  }

  lemma FromToOctets(s: ByteString)
    ensures FromOctets(ToOctets(s)) == s
  {
  }

  lemma ToFromOctets(o: Base64.Octets)
    ensures ToOctets(FromOctets(o)) == o
  {
    forall i | 0 <= i < |o|
      ensures ToOctets(FromOctets(o))[i] == o[i]
    {
      SameOctet(ToOctets(FromOctets(o))[i], o[i]);
    }
  }

  /** The value a carrier gets for a context. */
  function ContextText(e: Endian, c: SpanContextData): ByteString {
    FromOctets(Base64.Encoding(ToOctets(Wire.Encoding(e, c))))
  }

  // ---------- Carriers ----------

  /** What a `TextMapReader` lets be seen: its answer to `LookupKey`, the entries `ForeachKey` offers, and its end. */
  datatype Reader = Reader(lookup: ByteString -> Result<ByteString, ErrorCode>,
                           entries: seq<Entry>,
                           end: Result<Unit, ErrorCode>)

  predicate EqualTo(a: ByteString, b: ByteString) {
    a == b
  }

  function ToLower(c: Byte): Byte {
    if 'A' <= c <= 'Z' then (c as int + 32) as char else c
  }

  /** Equality up to the case of ASCII letters. */
  predicate IEquals(a: ByteString, b: ByteString) {
    |a| == |b| && forall i :: 0 <= i < |a| ==> ToLower(a[i]) == ToLower(b[i])
  }

  /** The value of the first entry whose key matches. */
  function FirstMatch(entries: seq<Entry>, key: ByteString, compare: Compare): Option<ByteString> {
    if |entries| == 0 then None
    else if compare(entries[0].0, key) then Some(entries[0].1)
    else FirstMatch(entries[1..], key, compare)
  }

  predicate Matches(entries: seq<Entry>, i: nat, key: ByteString, compare: Compare) {
    i < |entries| && compare(entries[i].0, key)
  }

  predicate MatchesFirst(entries: seq<Entry>, i: nat, key: ByteString, compare: Compare) {
    Matches(entries, i, key, compare) && forall j :: 0 <= j < i ==> !Matches(entries, j, key, compare)
  }

  lemma {:induction false} FirstMatchIsFirst(entries: seq<Entry>, key: ByteString, compare: Compare)
    ensures FirstMatch(entries, key, compare) == None <==> forall i: nat :: !Matches(entries, i, key, compare)
    ensures forall i: nat :: MatchesFirst(entries, i, key, compare) ==>
      FirstMatch(entries, key, compare) == Some(entries[i].1)
  {
    if |entries| != 0 && !compare(entries[0].0, key) {
      var rest := entries[1..];
      FirstMatchIsFirst(rest, key, compare);
      assert forall i: nat :: Matches(rest, i, key, compare) == Matches(entries, i + 1, key, compare);
      assert !Matches(entries, 0, key, compare);
      if FirstMatch(rest, key, compare) == None {
        forall i: nat ensures !Matches(entries, i, key, compare) {
          assert i > 0 ==> !Matches(rest, i - 1, key, compare);
        }
      }
      forall i: nat | MatchesFirst(entries, i, key, compare)
        ensures FirstMatch(entries, key, compare) == Some(entries[i].1)
      {
        assert MatchesFirst(rest, i - 1, key, compare);
      }
    } else if |entries| != 0 {
      assert Matches(entries, 0, key, compare);
    }
  }

  /** The callback of the scan: it assigns the captured result and bails out with a success code. */
  method Visit(carrierKey: ByteString, value: ByteString, key: ByteString, compare: Compare,
               result: Result<ByteString, ErrorCode>)
    returns (r: Result<Unit, ErrorCode>, result': Result<ByteString, ErrorCode>)
    ensures compare(carrierKey, key) ==> r == Err(NO_ERROR) && result' == Ok(value)
    ensures !compare(carrierKey, key) ==> r == Ok(Unit) && result' == result
  {
    if !compare(carrierKey, key) {
      return Ok(Unit), result;
    }
    return Err(NO_ERROR), Ok(value);
  }

  /** `ForeachKey` with that callback, for a carrier that stops at the callback's first error. */
  method ForeachKey(carrier: Reader, key: ByteString, compare: Compare, result: Result<ByteString, ErrorCode>)
    returns (r: Result<Unit, ErrorCode>, result': Result<ByteString, ErrorCode>)
    ensures match FirstMatch(carrier.entries, key, compare)
      case Some(value) => r == Err(NO_ERROR) && result' == Ok(value)
      case None => r == carrier.end && result' == result
  {
    result' := result;
    var i := 0;
    assert carrier.entries[0..] == carrier.entries;
    while i < |carrier.entries|
      invariant 0 <= i <= |carrier.entries| && result' == result
      invariant FirstMatch(carrier.entries, key, compare) == FirstMatch(carrier.entries[i..], key, compare)
    {
      assert carrier.entries[i..][1..] == carrier.entries[i + 1..];
      r, result' := Visit(carrier.entries[i].0, carrier.entries[i].1, key, compare, result');
      if r.Err? {
        return r, result';
      }
      i := i + 1;
    }
    r := carrier.end;
  }

  /** What looking up a key comes to. */
  function LookingUp(carrier: Reader, key: ByteString, compare: Compare): Result<ByteString, ErrorCode> {
    var fast := carrier.lookup(key);
    if fast != Err(LOOKUP_NOT_SUPPORTED) then fast
    else match FirstMatch(carrier.entries, key, compare)
      case Some(value) => Ok(value)
      case None =>
        if carrier.end.Err? && carrier.end.error != NO_ERROR then Err(carrier.end.error) else Err(KEY_NOT_FOUND)
  }

  method LookupKey(carrier: Reader, key: ByteString, compare: Compare) returns (result: Result<ByteString, ErrorCode>)
    ensures result == LookingUp(carrier, key, compare)
  {
    result := carrier.lookup(key);
    if result.Ok? || result.error != LOOKUP_NOT_SUPPORTED {
      return result;
    }
    result := Err(KEY_NOT_FOUND);
    var wasSuccessful;
    wasSuccessful, result := ForeachKey(carrier, key, compare, result);
    if wasSuccessful.Err? && wasSuccessful.error != NO_ERROR {
      return Err(wasSuccessful.error);
    }
  }

  /**
    The answers of the scan: the first matching entry's value, whatever the
    carrier would have done afterwards; otherwise the carrier's own error, or
    key-not-found. The code used to leave the loop is never one of them.
   */
  lemma ScanAnswers(carrier: Reader, key: ByteString, compare: Compare)
    requires carrier.lookup(key) == Err(LOOKUP_NOT_SUPPORTED)
    ensures forall i: nat :: MatchesFirst(carrier.entries, i, key, compare) ==>
      LookingUp(carrier, key, compare) == Ok(carrier.entries[i].1)
    ensures (forall i: nat :: !Matches(carrier.entries, i, key, compare)) ==>
      LookingUp(carrier, key, compare) ==
      Err(if carrier.end.Ok? || carrier.end.error == NO_ERROR then KEY_NOT_FOUND else carrier.end.error)
    ensures LookingUp(carrier, key, compare) != Err(NO_ERROR)
  {
    FirstMatchIsFirst(carrier.entries, key, compare);
  }

  // ---------- Extraction ----------

  /** A call returns, or an exception other than `bad_alloc` leaves it. */
  datatype Outcome<+T> = Returned(value: T) | LengthErrorThrown

  datatype Extracted = Extracted(data: SpanContextData, result: Outcome<Result<bool, ErrorCode>>)

  /** Extraction from the value found. */
  function FromText(e: Endian, value: ByteString, data: SpanContextData): Extracted {
    match Base64.Decoding(ToOctets(value))
    case LengthError => Extracted(data, LengthErrorThrown)
    case Decoded(bytes) =>
      if bytes == [] then Extracted(data, Returned(Err(SPAN_CONTEXT_CORRUPTED)))
      else
        var x := Wire.Extraction(e, Fresh(FromOctets(bytes)), data);
        Extracted(x.data, Returned(x.result))
  }

  function Extraction(e: Endian, key: ByteString, carrier: Reader, compare: Compare, data: SpanContextData): Extracted {
    match LookingUp(carrier, key, compare)
    case Err(error) => Extracted(data, Returned(if error == KEY_NOT_FOUND then Ok(false) else Err(error)))
    case Ok(value) => FromText(e, value, data)
  }

  method ExtractSpanContext(e: Endian, key: ByteString, carrier: Reader, compare: Compare, data: SpanContextData)
    returns (data': SpanContextData, r: Outcome<Result<bool, ErrorCode>>)
    ensures Extracted(data', r) == Extraction(e, key, carrier, compare, data)
  {
    var valueMaybe := LookupKey(carrier, key, compare);
    if valueMaybe.Err? {
      if valueMaybe.error == KEY_NOT_FOUND {
        return data, Returned(Ok(false));
      } else {
        return data, Returned(Err(valueMaybe.error));
      }
    }
    var decoded := Base64.Decode(ToOctets(valueMaybe.value));
    if decoded.LengthError? {
      return data, LengthErrorThrown;
    }
    if decoded.bytes == [] {
      return data, Returned(Err(SPAN_CONTEXT_CORRUPTED));
    }
    var istream := new IStream(FromOctets(decoded.bytes));
    var result;
    data', result := Wire.ExtractSpanContext(e, istream, data);
    r := Returned(result);
  }

  // ---------- Injection ----------

  /** The entries after `text_map[key] = value`. */
  function WithEntry(entries: seq<Entry>, key: ByteString, value: ByteString): seq<Entry> {
    if |entries| == 0 then [(key, value)]
    else if entries[0].0 == key then [(key, value)] + entries[1..]
    else [entries[0]] + WithEntry(entries[1..], key, value)
  }

  /** A carrier that is written to; `refusal` is the error its `Set` returns, if it does. */
  class Writer {
    var entries: seq<Entry>
    const refusal: Option<ErrorCode>

    constructor (entries: seq<Entry>, refusal: Option<ErrorCode>)
      ensures this.entries == entries && this.refusal == refusal
    {
      this.entries, this.refusal := entries, refusal;
    }

    method Set(key: ByteString, value: ByteString) returns (r: Result<Unit, ErrorCode>)
      modifies this
      ensures refusal == None ==> r == Ok(Unit) && entries == WithEntry(old(entries), key, value)
      ensures refusal.Some? ==> r == Err(refusal.value) && entries == old(entries)
    {
      if refusal.Some? {
        return Err(refusal.value);
      }
      entries := WithEntry(entries, key, value);
      r := Ok(Unit);
    }
  }

  method InjectSpanContext(e: Endian, key: ByteString, carrier: Writer, c: SpanContextData)
    returns (r: Result<Unit, ErrorCode>)
    modifies carrier
    ensures carrier.refusal == None ==>
      r == Ok(Unit) && carrier.entries == WithEntry(old(carrier.entries), key, ContextText(e, c))
    ensures carrier.refusal.Some? ==> r == Err(carrier.refusal.value) && carrier.entries == old(carrier.entries)
  {
    var ostream := new OStream(None);
    r := Wire.InjectSpanContext(e, ostream, c);
    if r.Err? {
      return r;
    }
    assert "" + Wire.Encoding(e, c) == Wire.Encoding(e, c);
    var contextValue := Base64.Encode(ToOctets(ostream.text));
    r := carrier.Set(key, FromOctets(contextValue));
  }
}
