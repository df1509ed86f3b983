/** Bytes as they lie in memory or on the wire. Memory is that of a little-endian host, the wire carries the
    most significant byte first. */
module Bytes {

  datatype Option<+T> = None | Some(value: T)

  type byte = x: int | 0 <= x < 256

  type bytes = seq<byte>

  const TWO16 := 0x1_0000
  const TWO31 := 0x8000_0000
  const TWO32 := 0x1_0000_0000
  const TWO64 := 0x1_0000_0000_0000_0000

  /** The 32-bit field starting at p on the wire. */
  function Word32(b: bytes, p: nat): (w: int)
    requires p + 4 <= |b|
    ensures 0 <= w < TWO32
  {
    b[p] as int * 0x100_0000 + b[p + 1] as int * 0x1_0000 + b[p + 2] as int * 0x100 + b[p + 3] as int
  }

  /** n as a 32-bit field on the wire. */
  function Bytes32(n: int): (b: bytes)
    requires 0 <= n < TWO32
    ensures |b| == 4 && Word32(b, 0) == n
    ensures b[0] >= 128 <==> n >= TWO31
  {
    var high, low := n / TWO16, n % TWO16;
    [high / 0x100, high % 0x100, low / 0x100, low % 0x100]
  }

  /** A 32-bit field read as a signed int. */
  function Signed32(w: int): int {
    if w >= TWO31 then w - TWO32 else w
  }

  /** A signed int as an unsigned 32-bit field. */
  function Unsigned32(n: int): int {
    if n < 0 then n + TWO32 else n
  }

  /** The sizes of the integers in memory. */
  predicate WordSize(n: int) {
    n == 1 || n == 2 || n == 4 || n == 8
  }

  /** Host memory read as an unsigned integer of |m| bytes. */
  function Unsigned(m: bytes): (v: nat)
    requires WordSize(|m|)
  {
    if |m| == 1 then m[0]
    else if |m| == 2 then m[0] as int + 0x100 * m[1] as int
    else if |m| == 4 then m[0] as int + 0x100 * m[1] as int + 0x1_0000 * m[2] as int + 0x100_0000 * m[3] as int
    else Unsigned(m[..4]) + TWO32 * Unsigned(m[4..])
  }

  /** Two to the bits of an integer of n bytes. */
  function Range(n: int): int
    requires WordSize(n)
  {
    if n == 1 then 0x100 else if n == 2 then TWO16 else if n == 4 then TWO32 else TWO64
  }

  /** Host memory read as a signed integer of |m| bytes, in two's complement. */
  function Signed(m: bytes): int
    requires WordSize(|m|)
  {
    if Unsigned(m) >= Range(|m|) / 2 then Unsigned(m) - Range(|m|) else Unsigned(m)
  }

  /** tobe16, tobe32, tobe64 on a little-endian host. */
  function Reverse(m: bytes): (r: bytes)
    ensures |r| == |m|
    ensures forall k :: 0 <= k < |r| ==> r[k] == m[|m| - 1 - k]
  {
    seq(|m|, k requires 0 <= k < |m| => m[|m| - 1 - k])
  }

  lemma ReverseTwice(m: bytes)
    ensures Reverse(Reverse(m)) == m
  {
  }

  lemma UnsignedBound(m: bytes)
    requires WordSize(|m|)
    ensures Unsigned(m) < Range(|m|)
  {
    if |m| == 8 {
      UnsignedBound(m[..4]);
      UnsignedBound(m[4..]);
    }
  }

  lemma SignedBound(m: bytes)
    requires WordSize(|m|)
    ensures -(Range(|m|) / 2) <= Signed(m) < Range(|m|) / 2
  {
    UnsignedBound(m);
  }

  /** A number that fits in fewer bytes lies in the low bytes. */
  lemma LowBytes(m: bytes, n: int)
    requires WordSize(|m|) && WordSize(n) && n <= |m| && Unsigned(m) < Range(n)
    ensures Unsigned(m[..n]) == Unsigned(m)
  {
    if |m| == 8 && n < 8 {
      UnsignedBound(m[..4]);
      UnsignedBound(m[4..]);
      assert Unsigned(m[4..]) == 0;
      LowBytes(m[..4], n);
      assert m[..4][..n] == m[..n];
    }
    if n == |m| { assert m[..n] == m; }
  }

  /** So does a negative one. */
  lemma LowBytesNegative(m: bytes, n: int)
    requires WordSize(|m|) && WordSize(n) && n <= |m| && -(Range(n) / 2) <= Signed(m) < 0
    ensures Signed(m[..n]) == Signed(m)
  {
    UnsignedBound(m);
    if n == |m| {
      assert m[..n] == m;
    } else if |m| == 8 {
      UnsignedBound(m[..4]);
      UnsignedBound(m[4..]);
      assert Unsigned(m[4..]) == TWO32 - 1;
      assert Signed(m[..4]) == Signed(m);
      LowBytesNegative(m[..4], n);
      assert m[..4][..n] == m[..n];
    }
  }

  /** The bytes of n as an unsigned integer in host memory. */
  function Store(n: int, size: int): (m: bytes)
    requires WordSize(size) && 0 <= n < Range(size)
    ensures |m| == size && Unsigned(m) == n
    decreases size
  {
    if size == 1 then [n]
    else if size == 2 then [n % 0x100, n / 0x100]
    else if size == 4 then Store(n % TWO16, 2) + Store(n / TWO16, 2)
    else
      var low, high := Store(n % TWO32, 4), Store(n / TWO32, 4);
      assert (low + high)[..4] == low && (low + high)[4..] == high;
      low + high
  }

  /** The bytes of a signed integer in host memory. */
  function StoreSigned(n: int, size: int): (m: bytes)
    requires WordSize(size) && -(Range(size) / 2) <= n < Range(size) / 2
    ensures |m| == size && Signed(m) == n
  {
    Store(if n < 0 then n + Range(size) else n, size)
  }
  // ---------------------------------------------------------------- positional notation

  /** The number whose digits to base 256 are the bytes, the first the least significant. */
  function LittleEndian(m: bytes): nat {
    if m == [] then 0 else m[0] as int + 0x100 * LittleEndian(m[1..])
  }

  function Power256(n: nat): nat {
    if n == 0 then 1 else 0x100 * Power256(n - 1)
  }

  lemma {:induction false} LittleEndianConcat(low: bytes, high: bytes)
    ensures LittleEndian(low + high) == LittleEndian(low) + Power256(|low|) * LittleEndian(high)
  {
    if low == [] {
      assert low + high == high;
    } else {
      assert (low + high)[1..] == low[1..] + high;
      LittleEndianConcat(low[1..], high);
    }
  }

  lemma FourDigits(m: bytes)
    requires |m| == 4
    ensures LittleEndian(m) == m[0] as int + 0x100 * m[1] as int + 0x1_0000 * m[2] as int + 0x100_0000 * m[3] as int
  {
    assert m[3..][1..] == [] && LittleEndian(m[3..]) == m[3];
    assert m[2..][1..] == m[3..] && LittleEndian(m[2..]) == m[2] as int + 0x100 * m[3] as int;
    assert m[1..][1..] == m[2..];
    assert LittleEndian(m[1..]) == m[1] as int + 0x100 * m[2] as int + 0x1_0000 * m[3] as int;
  }

  /** Host memory has the least significant byte first. */
  lemma HostOrder(m: bytes)
    requires WordSize(|m|)
    ensures Unsigned(m) == LittleEndian(m)
    ensures Signed(m) == LittleEndian(m) - if m[|m| - 1] >= 128 then Power256(|m|) else 0
  {
    assert Power256(1) == 0x100 && Power256(2) == TWO16;
    assert Power256(3) == 0x100_0000 && Power256(4) == TWO32;
    if |m| == 1 {
      assert m[1..] == [];
    } else if |m| == 2 {
      assert m[1..][1..] == [];
    } else if |m| == 4 {
      FourDigits(m);
    } else {
      FourDigits(m[..4]);
      FourDigits(m[4..]);
      LittleEndianConcat(m[..4], m[4..]);
      assert m == m[..4] + m[4..];
      assert Power256(5) == 0x100 * TWO32 && Power256(6) == TWO16 * TWO32;
      assert Power256(7) == 0x100_0000 * TWO32 && Power256(8) == TWO64;
    }
  }

  /** The wire has the most significant byte first, and every field of four bytes is that of its number. */
  lemma WireOrder(b: bytes, p: nat)
    requires p + 4 <= |b|
    ensures Word32(b, p) == LittleEndian(Reverse(b[p..p + 4]))
    ensures Bytes32(Word32(b, p)) == b[p..p + 4]
  {
    FourDigits(Reverse(b[p..p + 4]));
    SameWord(Bytes32(Word32(b, p)), b[p..p + 4]);
  }

  lemma SameWord(x: bytes, y: bytes)
    requires |x| == |y| == 4 && Word32(x, 0) == Word32(y, 0)
    ensures x == y
  {
    assert x[0] == y[0];
    assert x[1] == y[1];
    assert x[2] == y[2];
    assert x[3] == y[3];
  }

  /** Its four bytes are the quotients of the number by powers of 256. */
  lemma WireBytes(n: int)
    requires 0 <= n < TWO32
    ensures Bytes32(n) == [n / 0x100_0000, n / 0x1_0000 % 0x100, n / 0x100 % 0x100, n % 0x100]
  {
    var b := Bytes32(n);
    Quotients(n, b[0], b[1], b[2], b[3]);
    assert b == [b[0], b[1], b[2], b[3]];
  }

  lemma Quotients(n: int, a: byte, b: byte, c: byte, d: byte)
    requires n == a as int * 0x100_0000 + b as int * 0x1_0000 + c as int * 0x100 + d as int
    ensures n / 0x100_0000 == a && n / 0x1_0000 % 0x100 == b && n / 0x100 % 0x100 == c && n % 0x100 == d
  {
    assert n / 0x1_0000 == a as int * 0x100 + b as int;
    assert n / 0x100 == (a as int * 0x100 + b as int) * 0x100 + c as int;
  }
}
