/**
  Bytes, machine integers and their memory layout: the model of
  mocktracer/src/utility.cpp.

  The host's byte order is a parameter of every function that depends on it, so
  one statement covers both architectures.
 */
module Bytes {

  /** One C++ `char`, seen as an unsigned byte. */
  type Byte = c: char | c as int < 256

  /** `std::string`. */
  type ByteString = seq<Byte>

  const TWO_TO_THE_31 := 0x8000_0000
  const TWO_TO_THE_32 := 0x1_0000_0000

  type UInt32 = x: int | 0 <= x < 0x1_0000_0000
  type UInt64 = x: int | 0 <= x < 0x1_0000_0000_0000_0000

  datatype Endian = Little | Big

  function Pow256(n: nat): (p: nat)
    ensures p > 0
  {
    if n == 0 then 1 else 256 * Pow256(n - 1)
  }

  function Zeros(n: nat): (s: ByteString)
    ensures |s| == n
  {
    seq(n, _ => '\0')
  }

  function Reverse(s: ByteString): (r: ByteString)
    ensures |r| == |s|
    ensures forall k :: 0 <= k < |s| ==> r[k] == s[|s| - 1 - k]
  {
    if |s| == 0 then [] else Reverse(s[1..]) + [s[0]]
  }

  /** The `n` low bytes of `x`, least significant first. */
  function LittleEndian(x: nat, n: nat): (bytes: ByteString)
    ensures |bytes| == n
  {
    if n == 0 then [] else [(x % 256) as char] + LittleEndian(x / 256, n - 1)
  }

  function LittleValue(bytes: ByteString): nat {
    if |bytes| == 0 then 0 else bytes[0] as int + 256 * LittleValue(bytes[1..])
  }

  /** The bytes an `n`-byte unsigned integer occupies in memory. */
  function Memory(e: Endian, x: nat, n: nat): (bytes: ByteString)
    ensures |bytes| == n
  {
    match e
    case Little => LittleEndian(x, n)
    case Big => Reverse(LittleEndian(x, n))
  }

  /** The unsigned integer that the given bytes of memory hold. */
  function FromMemory(e: Endian, bytes: ByteString): nat {
    match e
    case Little => LittleValue(bytes)
    case Big => LittleValue(Reverse(bytes))
  }

  /** The integer whose byte sequence is the reverse of that of `x`. */
  function Swapped(x: nat, n: nat): nat {
    LittleValue(Reverse(LittleEndian(x, n)))
  }

  function SwappedIfBig(e: Endian, x: nat, n: nat): nat {
    if e.Big? then Swapped(x, n) else x
  }

  // ---------- Layout lemmas ----------

  /** Byte `i` of the layout is digit `i` of the number in base 256. */
  lemma {:induction false} LittleEndianAt(x: nat, n: nat, i: nat)
    requires i < n
    ensures LittleEndian(x, n)[i] as int == x / Pow256(i) % 256
    decreases i
  {
    if i > 0 {
      LittleEndianAt(x / 256, n - 1, i - 1);
      DivideTwice(x, Pow256(i - 1));
    }
  }

  lemma DivideTwice(x: nat, p: nat)
    requires p > 0
    ensures x / 256 / p == x / (256 * p)
  {
    var q, r := x / 256, x % 256;
    var a, b := q / p, q % p;
    assert x == (256 * p) * a + (256 * b + r) by {
      assert q == p * a + b;
    }
    DivisionUnique(x, 256 * p, a, 256 * b + r);
  }

  lemma DivisionUnique(x: nat, m: nat, q: nat, r: nat)
    requires m > 0 && x == m * q + r && r < m
    ensures x / m == q && x % m == r
  {
    var d := x / m - q;
    assert x == m * (x / m) + x % m;
    MultipleOf(m, x / m, q);
    if d >= 1 {
      AtLeast(m, d);
    } else if d <= -1 {
      AtLeast(m, -d);
    }
  }

  lemma MultipleOf(m: nat, a: int, b: int)
    ensures m * a - m * b == m * (a - b)
    ensures m * (b - a) == -(m * (a - b))
  {
  }

  lemma AtLeast(m: nat, d: int)
    requires d >= 1
    ensures m * d >= m
  {
  }

  lemma {:induction false} LittleValueBound(bytes: ByteString)
    ensures LittleValue(bytes) < Pow256(|bytes|)
  {
    if |bytes| != 0 {
      LittleValueBound(bytes[1..]);
    }
  }

  lemma {:induction false} LittleValueOfLittleEndian(x: nat, n: nat)
    requires x < Pow256(n)
    ensures LittleValue(LittleEndian(x, n)) == x
  {
    if n != 0 {
      LittleValueOfLittleEndian(x / 256, n - 1);
      assert LittleEndian(x, n)[1..] == LittleEndian(x / 256, n - 1);
    }
  }

  lemma {:induction false} LittleEndianOfLittleValue(bytes: ByteString)
    ensures LittleEndian(LittleValue(bytes), |bytes|) == bytes
  {
    if |bytes| != 0 {
      LittleEndianOfLittleValue(bytes[1..]);
      assert bytes == [bytes[0]] + bytes[1..];
    }
  }

  lemma ReverseInvolutive(s: ByteString)
    ensures Reverse(Reverse(s)) == s
  {
  }

  lemma FromMemoryOfMemory(e: Endian, x: nat, n: nat)
    requires x < Pow256(n)
    ensures FromMemory(e, Memory(e, x, n)) == x
  {
    LittleValueOfLittleEndian(x, n);
    ReverseInvolutive(LittleEndian(x, n));
  }

  lemma MemoryOfFromMemory(e: Endian, bytes: ByteString)
    ensures FromMemory(e, bytes) < Pow256(|bytes|)
    ensures Memory(e, FromMemory(e, bytes), |bytes|) == bytes
  {
    var little := if e.Big? then Reverse(bytes) else bytes;
    LittleValueBound(little);
    LittleEndianOfLittleValue(little);
    ReverseInvolutive(bytes);
  }

  lemma PowersOf256()
    ensures Pow256(4) == 0x1_0000_0000
    ensures Pow256(8) == 0x1_0000_0000_0000_0000
  {
    assert Pow256(2) == 256 * 256;
    assert Pow256(4) == 256 * 256 * Pow256(2);
    assert Pow256(6) == 256 * 256 * Pow256(4);
  }

  // ---------- Byte order of the wire ----------

  /** Conversion puts the value in memory in little-endian order on every host. */
  lemma MemoryOfSwappedIfBig(e: Endian, x: nat, n: nat)
    requires x < Pow256(n)
    ensures SwappedIfBig(e, x, n) < Pow256(n)
    ensures Memory(e, SwappedIfBig(e, x, n), n) == LittleEndian(x, n)
  {
    var little := LittleEndian(x, n);
    if e.Big? {
      LittleValueBound(Reverse(little));
      LittleEndianOfLittleValue(Reverse(little));
      ReverseInvolutive(little);
    }
  }

  /** Whatever a host reads from memory, converting gives the little-endian value. */
  lemma SwappedValue(e: Endian, bytes: ByteString)
    ensures SwappedIfBig(e, FromMemory(e, bytes), |bytes|) == LittleValue(bytes)
  {
    if e.Big? {
      LittleEndianOfLittleValue(Reverse(bytes));
      ReverseInvolutive(bytes);
    }
  }

  lemma SwappedIfBigInvolutive(e: Endian, x: nat, n: nat)
    requires x < Pow256(n)
    ensures SwappedIfBig(e, SwappedIfBig(e, x, n), n) == x
  {
    MemoryOfSwappedIfBig(e, x, n);
    LittleValueOfLittleEndian(x, n);
    SwappedValue(e, LittleEndian(x, n));
    LittleValueBound(Reverse(LittleEndian(x, n)));
    FromMemoryOfMemory(e, SwappedIfBig(e, x, n), n);
  }

  // ---------- mocktracer/src/utility.cpp ----------

  /** Copies the bytes of `u` in reverse order into the result. */
  method SwapEndian(e: Endian, u: nat, n: nat) returns (r: nat)
    requires u < Pow256(n)
    ensures r == Swapped(u, n)
  {
    var source := Memory(e, u, n);
    var dest := new Byte[n](_ => '\0');
    for k := 0 to n
      invariant forall j :: 0 <= j < k ==> dest[j] == source[n - j - 1]
    {
      dest[k] := source[n - k - 1];
    }
    assert dest[..] == Reverse(source);
    ReverseInvolutive(LittleEndian(u, n));
    r := FromMemory(e, dest[..]);
  }

  /** Looks at the first byte in memory of a known integer. */
  predicate IsBigEndian(e: Endian) {
    Memory(e, 0x01020304, 4)[0] as int == 1
  }

  lemma IsBigEndianExactly(e: Endian)
    ensures IsBigEndian(e) <==> e.Big?
  {
    var little := LittleEndian(0x01020304, 4);
    assert little[0] as int == 4;
    assert little[3] as int == 1 by {
      assert little == [(0x01020304 % 256) as char] + LittleEndian(0x010203, 3);
      assert LittleEndian(0x010203, 3) == [(0x010203 % 256) as char] + LittleEndian(0x0102, 2);
      assert LittleEndian(0x0102, 2) == [(0x0102 % 256) as char] + LittleEndian(0x01, 1);
      assert LittleEndian(0x01, 1)[0] as int == 1;
    }
  }

  method SwapEndianIfBig(e: Endian, x: nat, n: nat) returns (r: nat)
    requires x < Pow256(n)
    ensures Memory(e, r, n) == LittleEndian(x, n)
    ensures r == SwappedIfBig(e, x, n)
  {
    IsBigEndianExactly(e);
    MemoryOfSwappedIfBig(e, x, n);
    if IsBigEndian(e) {
      r := SwapEndian(e, x, n);
    } else {
      r := x;
    }
  }
}
