/**
  The Base64 codec of mocktracer/src/base64.cpp.

  The specification is section 4 of RFC 4648 read literally: the input is a bit
  string, cut into six-bit groups from the left, the last group filled with zero
  bits, each group printed through the alphabet, and the text filled with '=' to
  a multiple of four characters.
 */
module Base64 {
  import opened Bytes
  import opened Wrappers
  import opened Seqs

  /** The bytes of a `std::string`, as the unsigned octets whose bits the codec moves. */
  type Octets = seq<bv8>

  // ---------- Alphabet ----------

  const UPPER := "ABCDEFGHIJKLMNOPQRSTUVWXYZ"
  const LOWER := "abcdefghijklmnopqrstuvwxyz"
  const NUMERALS := "0123456789"

  const CHAR_TABLE: string := UPPER + LOWER + NUMERALS + "+/"

  /** The code of PAD. */
  const PAD: bv8 := 61

  /** The code of the alphabet character of a six-bit value. */
  function Digit(d: bv8): bv8
    requires d < 64
  {
    if d < 26 then d + 65 else if d < 52 then d + 71 else if d < 62 then d - 4 else if d == 62 then 43 else 47
  }

  /** `Digit` is indexing the table, and every index below 64 is inside it. */
  lemma DigitIsTableEntry(d: bv8)
    requires d < 64
    ensures |CHAR_TABLE| == 64 && CHAR_TABLE[d as int] as int == Digit(d) as int
  {
    var i := d as int;
    if i < 26 {
      assert CHAR_TABLE[i] == UPPER[i];
      assert UPPER[i] as int == i + 65;
    } else if i < 52 {
      assert CHAR_TABLE[i] == LOWER[i - 26];
      assert LOWER[i - 26] as int == i + 71;
    } else if i < 62 {
      assert CHAR_TABLE[i] == NUMERALS[i - 52];
      assert NUMERALS[i - 52] as int == i - 4;
    } else {
      assert CHAR_TABLE[i] == "+/"[i - 62];
    }
  }

  /** The entry of the reverse table for code `c`; 64 marks a character outside the alphabet. */
  function ReverseLookup(c: bv8): (d: bv8)
    ensures d <= 64
  {
    if 65 <= c <= 90 then c - 65
    else if 97 <= c <= 122 then c - 71
    else if 48 <= c <= 57 then c + 4
    else if c == 43 then 62
    else if c == 47 then 63
    else 64
  }

  /** The two tables are inverse to each other. */
  lemma LookupOfDigit(d: bv8)
    requires d < 64
    ensures ReverseLookup(Digit(d)) == d
  {
  }

  lemma DigitOfLookup(c: bv8)
    requires ReverseLookup(c) != 64
    ensures Digit(ReverseLookup(c)) == c
  {
  }

  // ---------- RFC 4648, section 4 ----------

  function OctetBits(b: bv8): (bits: seq<bool>)
    ensures |bits| == 8
  {
    [(b & 0x80) != 0, (b & 0x40) != 0, (b & 0x20) != 0, (b & 0x10) != 0,
     (b & 0x08) != 0, (b & 0x04) != 0, (b & 0x02) != 0, (b & 0x01) != 0]
  }

  function BitString(s: Octets): (bits: seq<bool>)
    ensures |bits| == 8 * |s|
  {
    if |s| == 0 then [] else OctetBits(s[0]) + BitString(s[1..])
  }

  predicate BitAt(bits: seq<bool>, i: nat) {
    i < |bits| && bits[i]
  }

  /** The six-bit number whose leading bits are `bits`, the missing ones being zero. */
  function Sextet(bits: seq<bool>): (d: bv8)
    ensures d < 64
  {
    (if BitAt(bits, 0) then 0x20 else 0) | (if BitAt(bits, 1) then 0x10 else 0) |
    (if BitAt(bits, 2) then 0x08 else 0) | (if BitAt(bits, 3) then 0x04 else 0) |
    (if BitAt(bits, 4) then 0x02 else 0) | (if BitAt(bits, 5) then 0x01 else 0)
  }

  /** The text of the complete six-bit groups of `bits`. */
  function FullGroups(bits: seq<bool>): (text: Octets)
    ensures |text| == |bits| / 6
  {
    if |bits| < 6 then [] else [Digit(Sextet(bits[..6]))] + FullGroups(bits[6..])
  }

  /** The bits after the last complete group. */
  function Leftover(bits: seq<bool>): (r: seq<bool>)
    ensures |r| == |bits| % 6
  {
    if |bits| < 6 then bits else Leftover(bits[6..])
  }

  function Groups(bits: seq<bool>): Octets {
    FullGroups(bits) + if Leftover(bits) == [] then [] else [Digit(Sextet(Leftover(bits)))]
  }

  function Padding(n: nat): Octets {
    match n % 3
    case 0 => []
    case 1 => [PAD, PAD]
    case _ => [PAD]
  }

  function Encoding(s: Octets): Octets {
    Groups(BitString(s)) + Padding(|s|)
  }

  lemma EncodingLength(s: Octets)
    ensures |Encoding(s)| == (|s| + 2) / 3 * 4
  {
    var n := |s|;
    assert n == n / 3 * 3 + n % 3;
    assert 8 * n == 6 * (n / 3 * 4) + 8 * (n % 3);
  }

  // ---------- Encoder ----------

  lemma {:induction false} GroupsAppend(a: seq<bool>, b: seq<bool>)
    ensures FullGroups(a + b) == FullGroups(a) + FullGroups(Leftover(a) + b)
    ensures Leftover(a + b) == Leftover(Leftover(a) + b)
  {
    if |a| >= 6 {
      GroupsAppend(a[6..], b);
      assert (a + b)[..6] == a[..6];
      assert (a + b)[6..] == a[6..] + b;
    }
  }

  lemma {:induction false} BitStringAppend(s: Octets, t: Octets)
    ensures BitString(s + t) == BitString(s) + BitString(t)
  {
    if |s| == 0 {
      assert s + t == t;
    } else {
      BitStringAppend(s[1..], t);
      assert (s + t)[1..] == s[1..] + t;
      Associate(OctetBits(s[0]), BitString(s[1..]), BitString(t));
    }
  }

  lemma BitStringOfOne(c: bv8)
    ensures BitString([c]) == OctetBits(c)
  {
    assert [c][1..] == [];
    assert BitString([c][1..]) == [];
  }

  /** The carry of the encoder's state machine before octet `pos`. */
  predicate Carries(next: bv8, pos: nat) {
    next < 64 && (pos % 3 == 1 ==> next & 0x0f == 0) && (pos % 3 == 2 ==> next & 0x03 == 0)
  }

  function StepText(b: bv8, pos: nat, next: bv8): Octets
    requires Carries(next, pos)
  {
    match pos % 3
    case 0 => [Digit(b >> 2)]
    case 1 => [Digit(next | (b >> 4))]
    case _ => [Digit(next | (b >> 6)), Digit(b & 0x3f)]
  }

  function StepNext(b: bv8, pos: nat): bv8 {
    match pos % 3
    case 0 => (b & 0x03) << 4
    case 1 => (b & 0x0f) << 2
    case _ => 0
  }

  lemma Waiting(left: seq<bool>)
    ensures |left| == 2 ==> Sextet(left) & 0x0f == 0
    ensures |left| == 4 ==> Sextet(left) & 0x03 == 0
    ensures |left| == 0 ==> Sextet(left) == 0
  {
  }

  lemma SextetsAfter0(b: bv8)
    ensures Sextet(OctetBits(b)[..6]) == b >> 2
    ensures Sextet(OctetBits(b)[6..]) == (b & 0x03) << 4
  {
  }

  lemma SextetsAfter2(left: seq<bool>, b: bv8)
    requires |left| == 2
    ensures Sextet((left + OctetBits(b))[..6]) == Sextet(left) | (b >> 4)
    ensures Sextet((left + OctetBits(b))[6..]) == (b & 0x0f) << 2
  {
  }

  lemma FirstSextetAfter4(left: seq<bool>, b: bv8)
    requires |left| == 4
    ensures Sextet((left + OctetBits(b))[..6]) == Sextet(left) | (b >> 6)
  {
  }

  lemma SecondSextetAfter4(left: seq<bool>, b: bv8)
    requires |left| == 4
    ensures Sextet((left + OctetBits(b))[6..]) == b & 0x3f
  {
  }

  lemma StepIsGroups(left: seq<bool>, b: bv8, pos: nat)
    requires |left| == 2 * (pos % 3)
    ensures Carries(Sextet(left), pos)
    ensures StepText(b, pos, Sextet(left)) == FullGroups(left + OctetBits(b))
    ensures StepNext(b, pos) == Sextet(Leftover(left + OctetBits(b)))
  {
    Waiting(left);
    var all := left + OctetBits(b);
    var rest := all[6..];
    assert FullGroups(all) == [Digit(Sextet(all[..6]))] + FullGroups(rest);
    assert Leftover(all) == Leftover(rest);
    match pos % 3 {
      case 0 =>
        assert all == OctetBits(b);
        SextetsAfter0(b);
      case 1 =>
        SextetsAfter2(left, b);
      case _ =>
        FirstSextetAfter4(left, b);
        SecondSextetAfter4(left, b);
        OneGroup(rest);
    }
  }

  lemma OneGroup(bits: seq<bool>)
    requires |bits| == 6
    ensures FullGroups(bits) == [Digit(Sextet(bits))]
    ensures Leftover(bits) == []
  {
    assert bits[..6] == bits && bits[6..] == [];
  }

  lemma WaitingLength(bits: seq<bool>, pos: nat)
    requires |bits| == 8 * pos
    ensures |Leftover(bits)| == 2 * (pos % 3)
  {
    var q, r := pos / 3, pos % 3;
    RemainderUnique(8 * pos, 4 * q + r, 2 * r);
  }

  lemma RemainderUnique(n: nat, q: nat, r: nat)
    requires n == 6 * q + r && r < 6
    ensures n % 6 == r
  {
  }

  /** Every octet keeps the invariant: text of the complete groups, leftover bits shifted into the carry. */
  lemma StepKeepsGroups(bits: seq<bool>, b: bv8, pos: nat)
    requires |bits| == 8 * pos
    ensures Carries(Sextet(Leftover(bits)), pos)
    ensures FullGroups(bits + OctetBits(b)) == FullGroups(bits) + StepText(b, pos, Sextet(Leftover(bits)))
    ensures Sextet(Leftover(bits + OctetBits(b))) == StepNext(b, pos)
  {
    WaitingLength(bits, pos);
    GroupsAppend(bits, OctetBits(b));
    StepIsGroups(Leftover(bits), b, pos);
  }

  /** One octet through the encoder's state machine. */
  method EncodeBase(cur: bv8, pos: nat, next: bv8, ret: Octets) returns (next': bv8, ret': Octets)
    requires Carries(next, pos)
    ensures next' == StepNext(cur, pos)
    ensures ret' == ret + StepText(cur, pos, next)
  {
    var b := cur;
    ret' := ret;
    match pos % 3 {
      case 0 =>
        ret' := ret' + [Digit(b >> 2)];
        next' := (b & 0x03) << 4;
      case 1 =>
        ret' := ret' + [Digit(next | (b >> 4))];
        next' := (b & 0x0f) << 2;
      case _ =>
        ret' := ret' + [Digit(next | (b >> 6))];
        ret' := ret' + [Digit(b & 0x3f)];
        next' := 0;
    }
  }

  method EncodeLast(pos: nat, last: bv8, ret: Octets) returns (ret': Octets)
    requires last < 64
    ensures ret' == ret + (if pos % 3 == 0 then [] else [Digit(last)]) + Padding(pos)
  {
    ret' := ret;
    match pos % 3 {
      case 1 =>
        ret' := ret' + [Digit(last)];
        ret' := ret' + [PAD];
        ret' := ret' + [PAD];
      case 2 =>
        ret' := ret' + [Digit(last)];
        ret' := ret' + [PAD];
      case _ =>
    }
  }

  /** Encoding; after `pos` octets the text is their complete groups and `next` holds the waiting bits. */
  method Encode(input: Octets) returns (ret: Octets)
    ensures ret == Encoding(input)
    ensures |ret| == (|input| + 2) / 3 * 4
  {
    ret := [];
    var pos, next := 0, 0;
    for i := 0 to |input|
      invariant pos == i
      invariant ret == FullGroups(BitString(input[..i]))
      invariant next == Sextet(Leftover(BitString(input[..i])))
    {
      BitStringAppend(input[..i], [input[i]]);
      BitStringOfOne(input[i]);
      assert input[..i + 1] == input[..i] + [input[i]];
      StepKeepsGroups(BitString(input[..i]), input[i], pos);
      next, ret := EncodeBase(input[i], pos, next, ret);
      pos := pos + 1;
    }
    assert input[..|input|] == input;
    WaitingLength(BitString(input), pos);
    ret := EncodeLast(pos, next, ret);
    EncodingLength(input);
  }

  // ---------- Decoder ----------

  /**
    What a text of four-character groups stands for. The third and the fourth
    character may be PAD only at the very end, and bits that do not belong to an
    octet must be zero.
   */
  function DecodeGroups(s: Octets): Option<Octets>
    requires |s| % 4 == 0
  {
    if |s| == 0 then Some([])
    else
      var a, b, c, d := ReverseLookup(s[0]), ReverseLookup(s[1]), ReverseLookup(s[2]), ReverseLookup(s[3]);
      if a == 64 || b == 64 then None
      else if c == 64 then
        if |s| == 4 && s[2] == PAD && s[3] == PAD && !UnusedBits(b, 15) then Some([First(a, b)]) else None
      else if d == 64 then
        if |s| == 4 && s[3] == PAD && !UnusedBits(c, 3) then Some([First(a, b), Second(b, c)]) else None
      else
        match DecodeGroups(s[4..])
        case None => None
        case Some(rest) => Some([First(a, b), Second(b, c), Third(c, d)] + rest)
  }

  function First(a: bv8, b: bv8): bv8 {
    (a << 2) | (b >> 4)
  }

  function Second(b: bv8, c: bv8): bv8 {
    (b << 4) | (c >> 2)
  }

  predicate UnusedBits(d: bv8, mask: bv8) {
    d & mask != 0
  }

  function Third(c: bv8, d: bv8): bv8 {
    (c << 6) | d
  }

  /** The `int` that a 64-bit length converts to. */
  function Int32(n: nat): int {
    var low := n % TWO_TO_THE_32;
    if low < TWO_TO_THE_31 then low else low - TWO_TO_THE_32
  }

  /** The number of PAD that the decoder takes for padding. */
  function PaddingSeen(s: Octets): nat
    requires |s| >= 4
  {
    if s[|s| - 1] != PAD then 0 else if s[|s| - 2] != PAD then 1 else 2
  }

  /**
    The size the decoder reserves. It is computed in `int` and converted to
    `size_t`, so when it is negative `reserve` is asked for more than `max_size`
    and throws. The length is a multiple of four, so the division is exact.
   */
  function ReservedSize(s: Octets): int
    requires |s| >= 4
  {
    Int32(|s|) / 4 * 3 - PaddingSeen(s)
  }

  datatype Decoded = Decoded(bytes: Octets) | LengthError

  function Decoding(s: Octets): Decoded {
    if |s| % 4 != 0 || |s| == 0 then Decoded([])
    else if ReservedSize(s) < 0 then LengthError
    else match DecodeGroups(s) case None => Decoded([]) case Some(bytes) => Decoded(bytes)
  }

  function Prepend(result: Octets, rest: Option<Octets>): Option<Octets> {
    match rest case None => None case Some(bytes) => Some(result + bytes)
  }

  /** What holds when `read` characters have been read and `result` pushed. */
  predicate Progress(s: Octets, read: nat, result: Octets) {
    read <= |s| && |s| % 4 == 0 && (|s| - read) % 4 == 0 &&
    DecodeGroups(s) == Prepend(result, DecodeGroups(s[read..]))
  }

  lemma ProgressStart(s: Octets)
    requires |s| % 4 == 0
    ensures Progress(s, 0, [])
  {
    assert s[0..] == s;
    if DecodeGroups(s).Some? {
      assert [] + DecodeGroups(s).value == DecodeGroups(s).value;
    }
  }

  lemma ProgressEnd(s: Octets, result: Octets)
    requires Progress(s, |s|, result) && Reservable(s)
    ensures Decoding(s) == Decoded(result)
  {
    assert result + [] == result;
  }

  lemma BadPair(s: Octets, read: nat, result: Octets)
    requires Progress(s, read, result) && read < |s| && Reservable(s)
    requires ReverseLookup(s[read]) == 64 || ReverseLookup(s[read + 1]) == 64
    ensures Decoding(s) == Decoded([])
  {
  }

  lemma EndsAtThird(s: Octets, read: nat, result: Octets)
    requires Progress(s, read, result) && read < |s| && Reservable(s)
    requires ReverseLookup(s[read]) != 64 && ReverseLookup(s[read + 1]) != 64 && ReverseLookup(s[read + 2]) == 64
    ensures var a, b := ReverseLookup(s[read]), ReverseLookup(s[read + 1]);
      Decoding(s) ==
      Decoded(if |s| - PaddingSeen(s) == read + 2 && !UnusedBits(b, 15) then result + [First(a, b)] else [])
  {
    var t := s[read..];
    assert t[0] == s[read] && t[1] == s[read + 1] && t[2] == s[read + 2] && t[3] == s[read + 3];
    assert (|s| - PaddingSeen(s) == read + 2) == (|t| == 4 && t[2] == PAD && t[3] == PAD);
  }

  lemma EndsAtFourth(s: Octets, read: nat, result: Octets)
    requires Progress(s, read, result) && read < |s| && Reservable(s)
    requires ReverseLookup(s[read]) != 64 && ReverseLookup(s[read + 1]) != 64 && ReverseLookup(s[read + 2]) != 64
    requires ReverseLookup(s[read + 3]) == 64
    ensures var a, b, c := ReverseLookup(s[read]), ReverseLookup(s[read + 1]), ReverseLookup(s[read + 2]);
      Decoding(s) ==
      Decoded(
        if |s| - PaddingSeen(s) == read + 3 && !UnusedBits(c, 3) then result + [First(a, b)] + [Second(b, c)] else [])
  {
    var t := s[read..];
    PushTwo(result, First(ReverseLookup(t[0]), ReverseLookup(t[1])), Second(ReverseLookup(t[1]), ReverseLookup(t[2])));
    assert t[0] == s[read] && t[1] == s[read + 1] && t[2] == s[read + 2] && t[3] == s[read + 3];
    assert (|s| - PaddingSeen(s) == read + 3) == (|t| == 4 && t[3] == PAD);
  }

  lemma FullGroup(s: Octets, read: nat, result: Octets)
    requires Progress(s, read, result) && read < |s|
    requires forall i :: read <= i < read + 4 ==> ReverseLookup(s[i]) != 64
    ensures var a, b, c, d :=
        ReverseLookup(s[read]), ReverseLookup(s[read + 1]), ReverseLookup(s[read + 2]), ReverseLookup(s[read + 3]);
      Progress(s, read + 4, result + [First(a, b)] + [Second(b, c)] + [Third(c, d)])
  {
    var t := s[read..];
    assert t[0] == s[read] && t[1] == s[read + 1] && t[2] == s[read + 2] && t[3] == s[read + 3];
    assert t[4..] == s[read + 4..];
    var a, b, c, d := ReverseLookup(t[0]), ReverseLookup(t[1]), ReverseLookup(t[2]), ReverseLookup(t[3]);
    assert result + [First(a, b), Second(b, c), Third(c, d)] == result + [First(a, b)] + [Second(b, c)] + [Third(c, d)];
    PrependTwice(result, [First(a, b), Second(b, c), Third(c, d)], DecodeGroups(t[4..]));
    assert DecodeGroups(t) == Prepend([First(a, b), Second(b, c), Third(c, d)], DecodeGroups(t[4..]));
  }

  lemma PushTwo(p: Octets, x: bv8, y: bv8)
    ensures p + [x] + [y] == p + [x, y]
  {
  }

  lemma PrependTwice(p: Octets, q: Octets, rest: Option<Octets>)
    ensures Prepend(p, Prepend(q, rest)) == Prepend(p + q, rest)
  {
    if rest.Some? {
      assert p + (q + rest.value) == (p + q) + rest.value;
    }
  }

  predicate Reservable(s: Octets) {
    |s| >= 4 && |s| % 4 == 0 && ReservedSize(s) >= 0
  }

  /** One turn of the decoding loop; `done` is its `return`. */
  method DecodeGroup(input: Octets, firstPadding: nat, read: nat, result: Octets)
    returns (done: bool, result': Octets)
    requires Reservable(input) && firstPadding == |input| - PaddingSeen(input)
    requires read < |input| && Progress(input, read, result)
    ensures done ==> Decoding(input) == Decoded(result')
    ensures !done ==> Progress(input, read + 4, result')
  {
    var a := ReverseLookup(input[read]);
    var b := ReverseLookup(input[read + 1]);
    if a == 64 || b == 64 {
      BadPair(input, read, result);
      return true, [];
    }
    result' := result + [First(a, b)];
    var c := ReverseLookup(input[read + 2]);
    if c == 64 {
      EndsAtThird(input, read, result);
      if firstPadding != read + 2 {
        return true, [];
      } else if UnusedBits(b, 15) {
        return true, [];
      } else {
        return true, result';
      }
    }
    result' := result' + [Second(b, c)];
    var d := ReverseLookup(input[read + 3]);
    if d == 64 {
      EndsAtFourth(input, read, result);
      if firstPadding != read + 3 {
        return true, [];
      } else if UnusedBits(c, 3) {
        return true, [];
      } else {
        return true, result';
      }
    }
    result' := result' + [Third(c, d)];
    FullGroup(input, read, result);
    done := false;
  }

  /** Decoding; `result` is what the groups read so far stand for. */
  method Decode(input: Octets) returns (r: Decoded)
    ensures r == Decoding(input)
  {
    var length := |input|;
    if length % 4 != 0 || length == 0 {
      return Decoded([]);
    }
    var firstPadding := length;
    var maxLength := Int32(length) / 4 * 3;
    if input[length - 1] == PAD {
      maxLength := maxLength - 1;
      firstPadding := length - 1;
      if input[length - 2] == PAD {
        maxLength := maxLength - 1;
        firstPadding := length - 2;
      }
    }
    if maxLength < 0 {
      return LengthError;
    }
    var result: Octets := [];
    var left := length;
    var read := 0;
    ProgressStart(input);
    while left > 0
      invariant 0 <= read && 0 <= left && read + left == length
      invariant Progress(input, read, result)
    {
      var done;
      done, result := DecodeGroup(input, firstPadding, read, result);
      if done {
        return Decoded(result);
      }
      read := read + 4;
      left := left - 4;
    }
    ProgressEnd(input, result);
    r := Decoded(result);
  }

  // ---------- The codec as an inverse pair ----------

  lemma NoGroups()
    ensures BitString([]) == [] && FullGroups([]) == [] && Leftover([]) == [] && Sextet([]) == 0
  {
  }

  // The four six-bit values of three octets; a missing octet counts as zero.

  function Sextet0(x: bv8): (d: bv8)
    ensures d < 64
  {
    x >> 2
  }

  function Sextet1(x: bv8, y: bv8): (d: bv8)
    ensures d < 64
  {
    ((x & 0x03) << 4) | (y >> 4)
  }

  function Sextet2(y: bv8, z: bv8): (d: bv8)
    ensures d < 64
  {
    ((y & 0x0f) << 2) | (z >> 6)
  }

  function Sextet3(z: bv8): (d: bv8)
    ensures d < 64
  {
    z & 0x3f
  }

  // Cutting octets into six-bit values and putting them together again, in both directions.

  lemma CutOctets(x: bv8, y: bv8, z: bv8)
    ensures ((x >> 2) << 2) | ((((x & 0x03) << 4) | (y >> 4)) >> 4) == x
    ensures ((((x & 0x03) << 4) | (y >> 4)) << 4) | ((((y & 0x0f) << 2) | (z >> 6)) >> 2) == y
    ensures ((((y & 0x0f) << 2) | (z >> 6)) << 6) | (z & 0x3f) == z
  {
  }

  lemma OctetsBack(x: bv8, y: bv8, z: bv8)
    ensures First(Sextet0(x), Sextet1(x, y)) == x
    ensures Second(Sextet1(x, y), Sextet2(y, z)) == y
    ensures Third(Sextet2(y, z), Sextet3(z)) == z
  {
    CutOctets(x, y, z);
  }

  lemma ZerosUnused(x: bv8)
    ensures !UnusedBits(Sextet1(x, 0), 15)
    ensures !UnusedBits(Sextet2(x, 0), 3)
  {
  }

  lemma FirstSextets(a: bv8, b: bv8, y: bv8)
    requires a < 64 && b < 64 && y >> 4 == b & 15
    ensures Sextet0(First(a, b)) == a && Sextet1(First(a, b), y) == b
  {
  }

  lemma SecondSextets(b: bv8, c: bv8, z: bv8)
    requires b < 64 && c < 64 && z >> 6 == c & 3
    ensures Second(b, c) >> 4 == b & 15 && Sextet2(Second(b, c), z) == c
  {
  }

  lemma ThirdSextets(c: bv8, d: bv8)
    requires c < 64 && d < 64
    ensures Third(c, d) >> 6 == c & 3 && Sextet3(Third(c, d)) == d
  {
  }

  // The first octets of an input, taken through the state machine.

  lemma GroupsOfOne(x: bv8)
    ensures FullGroups(BitString([x])) == [Digit(Sextet0(x))]
    ensures Sextet(Leftover(BitString([x]))) == (x & 0x03) << 4
  {
    NoGroups();
    StepKeepsGroups([], x, 0);
    BitStringOfOne(x);
    assert [] + OctetBits(x) == OctetBits(x);
  }

  lemma GroupsOfTwo(x: bv8, y: bv8)
    ensures FullGroups(BitString([x, y])) == [Digit(Sextet0(x)), Digit(Sextet1(x, y))]
    ensures Sextet(Leftover(BitString([x, y]))) == (y & 0x0f) << 2
  {
    GroupsOfOne(x);
    StepKeepsGroups(BitString([x]), y, 1);
    BitStringAppend([x], [y]);
    BitStringOfOne(y);
    assert [x] + [y] == [x, y];
  }

  lemma GroupsOfThree(x: bv8, y: bv8, z: bv8)
    ensures FullGroups(BitString([x, y, z])) ==
      [Digit(Sextet0(x)), Digit(Sextet1(x, y)), Digit(Sextet2(y, z)), Digit(Sextet3(z))]
    ensures Leftover(BitString([x, y, z])) == []
  {
    GroupsOfTwo(x, y);
    StepKeepsGroups(BitString([x, y]), z, 2);
    BitStringAppend([x, y], [z]);
    BitStringOfOne(z);
    assert [x, y] + [z] == [x, y, z];
    WaitingLength(BitString([x, y, z]), 3);
  }

  lemma EncodingOfOne(x: bv8)
    ensures Encoding([x]) == [Digit(Sextet0(x)), Digit(Sextet1(x, 0)), PAD, PAD]
  {
    GroupsOfOne(x);
    WaitingLength(BitString([x]), 1);
    assert Groups(BitString([x])) == [Digit(Sextet0(x))] + [Digit((x & 0x03) << 4)];
  }

  lemma EncodingOfTwo(x: bv8, y: bv8)
    ensures Encoding([x, y]) == [Digit(Sextet0(x)), Digit(Sextet1(x, y)), Digit(Sextet2(y, 0)), PAD]
  {
    GroupsOfTwo(x, y);
    WaitingLength(BitString([x, y]), 2);
    assert Groups(BitString([x, y])) == [Digit(Sextet0(x)), Digit(Sextet1(x, y))] + [Digit((y & 0x0f) << 2)];
  }

  lemma AppendAfterWhole(a: seq<bool>, b: seq<bool>)
    requires Leftover(a) == []
    ensures Groups(a + b) == FullGroups(a) + Groups(b)
  {
    hide Sextet, Digit;
    GroupsAppend(a, b);
    assert [] + b == b;
  }

  lemma EncodingOfThree(x: bv8, y: bv8, z: bv8, rest: Octets)
    ensures Encoding([x, y, z] + rest) ==
      [Digit(Sextet0(x)), Digit(Sextet1(x, y)), Digit(Sextet2(y, z)), Digit(Sextet3(z))] + Encoding(rest)
  {
    hide Sextet0, Sextet1, Sextet2, Sextet3, BitString, Digit;
    GroupsOfThree(x, y, z);
    BitStringAppend([x, y, z], rest);
    AppendAfterWhole(BitString([x, y, z]), BitString(rest));
    assert |[x, y, z] + rest| % 3 == |rest| % 3;
  }

  /** The vectors of RFC 4648, section 10, for "f", "fo" and "foo": "Zg==", "Zm8=" and "Zm9v". */
  lemma TestVectors()
    ensures Encoding([]) == []
    ensures Encoding([102]) == [90, 103, 61, 61]
    ensures Encoding([102, 111]) == [90, 109, 56, 61]
    ensures Encoding([102, 111, 111]) == [90, 109, 57, 118]
  {
    hide Encoding;
    EncodingLength([]);
    EncodingOfOne(102);
    EncodingOfTwo(102, 111);
    EncodingOfThree(102, 111, 111, []);
    var foo: Octets := [102, 111, 111];
    assert foo + [] == foo;
  }

  /** Decoding undoes encoding. */
  lemma {:induction false} DecodeOfEncoding(s: Octets)
    ensures |Encoding(s)| % 4 == 0 && DecodeGroups(Encoding(s)) == Some(s)
  {
    EncodingLength(s);
    if |s| == 0 {
      NoGroups();
    } else if |s| == 1 {
      DecodeOfOne(s[0]);
      assert s == [s[0]];
    } else if |s| == 2 {
      DecodeOfTwo(s[0], s[1]);
      assert s == [s[0], s[1]];
    } else {
      var rest := s[3..];
      assert s == [s[0], s[1], s[2]] + rest;
      DecodeOfEncoding(rest);
      EncodingOfThree(s[0], s[1], s[2], rest);
      DecodeOfThree(s[0], s[1], s[2], Encoding(rest));
    }
  }

  lemma DecodeOfOne(x: bv8)
    ensures |Encoding([x])| == 4 && DecodeGroups(Encoding([x])) == Some([x])
  {
    EncodingOfOne(x);
    LookupOfDigit(Sextet0(x));
    LookupOfDigit(Sextet1(x, 0));
    OctetsBack(x, 0, 0);
    ZerosUnused(x);
  }

  lemma DecodeOfTwo(x: bv8, y: bv8)
    ensures |Encoding([x, y])| == 4 && DecodeGroups(Encoding([x, y])) == Some([x, y])
  {
    EncodingOfTwo(x, y);
    LookupOfDigit(Sextet0(x));
    LookupOfDigit(Sextet1(x, y));
    LookupOfDigit(Sextet2(y, 0));
    OctetsBack(x, y, 0);
    ZerosUnused(y);
  }

  lemma DecodeOfThree(x: bv8, y: bv8, z: bv8, rest: Octets)
    requires |rest| % 4 == 0
    ensures var text := [Digit(Sextet0(x)), Digit(Sextet1(x, y)), Digit(Sextet2(y, z)), Digit(Sextet3(z))] + rest;
      |text| % 4 == 0 && DecodeGroups(text) == Prepend([x, y, z], DecodeGroups(rest))
  {
    LookupOfDigit(Sextet0(x));
    LookupOfDigit(Sextet1(x, y));
    LookupOfDigit(Sextet2(y, z));
    LookupOfDigit(Sextet3(z));
    OctetsBack(x, y, z);
    var text := [Digit(Sextet0(x)), Digit(Sextet1(x, y)), Digit(Sextet2(y, z)), Digit(Sextet3(z))] + rest;
    assert text[4..] == rest;
  }

  /** Whatever decodes is the encoding of its result: there is no second spelling. */
  lemma {:induction false} EncodingOfDecode(s: Octets)
    requires |s| % 4 == 0 && DecodeGroups(s).Some?
    ensures Encoding(DecodeGroups(s).value) == s
  {
    if |s| == 0 {
      NoGroups();
    } else if ReverseLookup(s[2]) == 64 {
      EncodingOfShort1(s);
    } else if ReverseLookup(s[3]) == 64 {
      EncodingOfShort2(s);
    } else {
      EncodingOfDecode(s[4..]);
      EncodingOfFull(s, DecodeGroups(s[4..]).value);
    }
  }

  lemma EncodingOfShort1(s: Octets)
    requires |s| == 4 && DecodeGroups(s).Some? && ReverseLookup(s[2]) == 64
    ensures Encoding(DecodeGroups(s).value) == s
  {
    hide Encoding, ReverseLookup, Digit;
    var a, b := ReverseLookup(s[0]), ReverseLookup(s[1]);
    DigitOfLookup(s[0]);
    DigitOfLookup(s[1]);
    FirstSextets(a, b, 0);
    EncodingOfOne(First(a, b));
    assert s == [s[0], s[1], PAD, PAD];
  }

  lemma EncodingOfShort2(s: Octets)
    requires |s| == 4 && DecodeGroups(s).Some? && ReverseLookup(s[2]) != 64 && ReverseLookup(s[3]) == 64
    ensures Encoding(DecodeGroups(s).value) == s
  {
    hide Encoding, ReverseLookup, Digit, Sextet0, Sextet1, Sextet2, Sextet3;
    var a, b, c := ReverseLookup(s[0]), ReverseLookup(s[1]), ReverseLookup(s[2]);
    DigitOfLookup(s[0]);
    DigitOfLookup(s[1]);
    DigitOfLookup(s[2]);
    SecondSextets(b, c, 0);
    FirstSextets(a, b, Second(b, c));
    EncodingOfTwo(First(a, b), Second(b, c));
    assert s == [s[0], s[1], s[2], PAD];
  }

  lemma EncodingOfSextets(a: bv8, b: bv8, c: bv8, d: bv8, rest: Octets)
    requires a < 64 && b < 64 && c < 64 && d < 64
    ensures Encoding([First(a, b), Second(b, c), Third(c, d)] + rest) ==
      [Digit(a), Digit(b), Digit(c), Digit(d)] + Encoding(rest)
  {
    ThirdSextets(c, d);
    SecondSextets(b, c, Third(c, d));
    FirstSextets(a, b, Second(b, c));
    EncodingOfThree(First(a, b), Second(b, c), Third(c, d), rest);
  }

  lemma EncodingOfFull(s: Octets, rest: Octets)
    requires |s| >= 4 && Encoding(rest) == s[4..]
    requires ReverseLookup(s[0]) != 64 && ReverseLookup(s[1]) != 64
    requires ReverseLookup(s[2]) != 64 && ReverseLookup(s[3]) != 64
    ensures var a, b, c, d := ReverseLookup(s[0]), ReverseLookup(s[1]), ReverseLookup(s[2]), ReverseLookup(s[3]);
      Encoding([First(a, b), Second(b, c), Third(c, d)] + rest) == s
  {
    hide Encoding, ReverseLookup, Digit, First, Second, Third;
    DigitOfLookup(s[0]);
    DigitOfLookup(s[1]);
    DigitOfLookup(s[2]);
    DigitOfLookup(s[3]);
    EncodingOfSextets(
      ReverseLookup(s[0]), ReverseLookup(s[1]), ReverseLookup(s[2]), ReverseLookup(s[3]), rest);
    assert s == [s[0], s[1], s[2], s[3]] + s[4..];
  }

  /** The lengths, modulo 2^32, for which the size the decoder computes in `int` is negative. */
  predicate ReserveOverflows(s: Octets) {
    |s| > 0 && |s| % 4 == 0 &&
    (|s| % 0x1_0000_0000 >= 0x8000_0000 || (|s| % 0x1_0000_0000 == 0 && s[|s| - 1] == PAD))
  }

  /** Exactly when the decoder's `reserve` throws, for every text. */
  lemma DecodingThrows(s: Octets)
    ensures Decoding(s) == LengthError <==> ReserveOverflows(s)
  {
    if |s| > 0 && |s| % 4 == 0 {
      NegativeSize(|s|, PaddingSeen(s));
    }
  }

  /**
    The decoder is the strict inverse of the encoder: among the texts it can
    reserve for, a non-empty result comes back exactly for the encodings of
    non-empty inputs, and it is that input. Misplaced or missing PAD, characters
    outside the alphabet and non-zero unused bits all give the empty result.
   */
  lemma StrictInverse(s: Octets)
    requires !ReserveOverflows(s)
    ensures Decoding(s).Decoded?
    ensures Decoding(s).bytes != [] <==> exists b: Octets :: b != [] && Encoding(b) == s
    ensures forall b: Octets :: Encoding(b) == s ==> Decoding(s).bytes == b
  {
    DecodingThrows(s);
    forall b: Octets | Encoding(b) == s
      ensures Decoding(s).bytes == b
    {
      DecodeOfEncoding(b);
      EncodingLength(b);
      if |s| == 0 {
        assert b == [];
      }
    }
    if Decoding(s).bytes != [] {
      EncodingOfDecode(s);
      assert Encoding(Decoding(s).bytes) == s;
    }
  }

  lemma NegativeSize(length: nat, padding: nat)
    requires length % 4 == 0 && padding <= 2
    ensures Int32(length) / 4 * 3 - padding < 0 <==>
      length % TWO_TO_THE_32 >= TWO_TO_THE_31 || (length % TWO_TO_THE_32 == 0 && padding > 0)
  {
    var low := length % TWO_TO_THE_32;
    assert low % 4 == 0;
    assert Int32(length) % 4 == 0;
  }

  /** Exactly when the decoder's `reserve` throws on an encoding. */
  lemma ReserveThrows(b: Octets)
    requires b != []
    ensures Decoding(Encoding(b)) == LengthError <==>
      var length := (|b| + 2) / 3 * 4 % TWO_TO_THE_32;
      length >= TWO_TO_THE_31 || (length == 0 && |b| % 3 != 0)
  {
    EncodingLength(b);
    EncodingEnd(b);
    NegativeSize(|Encoding(b)|, PaddingSeen(Encoding(b)));
  }

  /** It throws on the encoding of any 0x6000_0000 octets, which has 2^31 characters; no shorter text does that. */
  lemma ReserveThrowsAt(b: Octets)
    requires |b| == 0x6000_0000
    ensures |Encoding(b)| == 0x8000_0000 && Decoding(Encoding(b)) == LengthError
  {
    EncodingLength(b);
    ReserveThrows(b);
  }

  /** Every four characters of an encoding that is not over stand for three octets by themselves. */
  lemma {:induction false} EncodingPrefix(b: Octets, k: nat)
    requires 4 * k < |Encoding(b)|
    ensures 3 * k < |b| && Encoding(b)[..4 * k] == Encoding(b[..3 * k])
    decreases k
  {
    hide Encoding;
    EncodingLength(b);
    if k == 0 {
      EncodingLength([]);
      assert b[..0] == [];
    } else {
      var head, rest := [b[0], b[1], b[2]], b[3..];
      assert b == head + rest;
      EncodingLength(rest);
      EncodingPrefix(rest, k - 1);
      EncodingOfThree(b[0], b[1], b[2], rest);
      EncodingOfThree(b[0], b[1], b[2], rest[..3 * k - 3]);
      assert b[..3 * k] == head + rest[..3 * k - 3];
      CutAfterFour([Digit(Sextet0(b[0])), Digit(Sextet1(b[0], b[1])), Digit(Sextet2(b[1], b[2])), Digit(Sextet3(b[2]))],
                   Encoding(rest), 4 * k);
    }
  }

  lemma CutAfterFour(a: Octets, b: Octets, n: nat)
    requires |a| == 4 <= n <= |a| + |b|
    ensures (a + b)[..n] == a + b[..n - 4]
  {
  }

  /** An encoding ends in as many PAD as its length asks for. */
  lemma {:induction false} EncodingEnd(b: Octets)
    requires b != []
    ensures |Encoding(b)| >= 4
    ensures PaddingSeen(Encoding(b)) == |Padding(|b|)|
  {
    EncodingLength(b);
    if |b| == 1 {
      assert b == [b[0]];
      EncodingOfOne(b[0]);
    } else if |b| == 2 {
      assert b == [b[0], b[1]];
      EncodingOfTwo(b[0], b[1]);
      DigitIsNotPadding(Sextet2(b[1], 0));
    } else {
      var rest := b[3..];
      assert b == [b[0], b[1], b[2]] + rest;
      EncodingOfThree(b[0], b[1], b[2], rest);
      if rest == [] {
        EncodingEndWhole(b);
      } else {
        EncodingEnd(rest);
        SamePadding(Encoding(b), Encoding(rest));
      }
    }
  }

  lemma SamePadding(s: Octets, tail: Octets)
    requires |tail| >= 4 && |s| >= |tail| && s[|s| - |tail|..] == tail
    ensures PaddingSeen(s) == PaddingSeen(tail)
  {
    assert s[|s| - 1] == tail[|tail| - 1] && s[|s| - 2] == tail[|tail| - 2];
  }

  lemma EncodingEndWhole(b: Octets)
    requires |b| == 3
    ensures |Encoding(b)| == 4 && PaddingSeen(Encoding(b)) == 0
  {
    NoGroups();
    assert b == [b[0], b[1], b[2]] + [];
    EncodingOfThree(b[0], b[1], b[2], []);
    DigitIsNotPadding(Sextet3(b[2]));
  }

  lemma DigitIsNotPadding(d: bv8)
    requires d < 64
    ensures Digit(d) != PAD
  {
    LookupOfDigit(d);
  }
}
