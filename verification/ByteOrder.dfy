/**
 The byte-order codec of byte_order_generic.h and my_byteorder.h: loads and stores of 2 to 8 bytes, low byte first,
 with the wrap-around of the C types written out.
 */
module ByteOrder {
  import opened Powers

  type Byte = n: int | 0 <= n < 256

  // -------------------------------------------------------------- reference

  function Power256(n: nat): (p: nat)
    ensures p > 0
  {
    if n == 0 then 1 else 256 * Power256(n - 1)
  }

  /** The base-256 sum, low byte first. */
  function LittleEndian(bytes: seq<Byte>): nat {
    if bytes == [] then 0 else bytes[0] + 256 * LittleEndian(bytes[1..])
  }

  /** The n low bytes of a number, low byte first. */
  function Bytes(n: nat, a: nat): (bytes: seq<Byte>)
    ensures |bytes| == n
  {
    if n == 0 then [] else [a % 256] + Bytes(n - 1, a / 256)
  }

  /** Storing and loading gives the number modulo 2^(8n). */
  lemma {:induction false} LoadStored(n: nat, a: nat)
    ensures LittleEndian(Bytes(n, a)) == a % Power256(n)
  {
    if n > 0 {
      LoadStored(n - 1, a / 256);
      ModuloStep(a, Power256(n - 1));
    }
  }

  lemma {:induction false} ModuloStep(a: nat, p: nat)
    requires p > 0
    ensures a % (256 * p) == a % 256 + 256 * (a / 256 % p)
  {
    var q, r := a / 256, a % 256;
    var k, s := q / p, q % p;
    assert q == k * p + s && a == 256 * q + r;
    var low := r + 256 * s;
    assert 256 * s + r < 256 * p;
    assert a == (256 * p) * k + low;
    RemainderIs(a, 256 * p, k, low);
  }

  lemma {:induction false} RemainderIs(a: nat, d: nat, k: nat, r: nat)
    requires d > 0 && a == d * k + r && r < d
    ensures a % d == r
  {
    var q, m := a / d, a % d;
    var diff: int := k - q;
    assert d * k - d * q == d * diff;
    assert d * diff == m - r;
    MultipleGrows(d, diff);
  }

  lemma {:induction false} MultipleGrows(d: nat, x: int)
    ensures x >= 1 ==> d * x >= d
    ensures x <= -1 ==> d * x <= -(d as int)
  {
    assert d * (x - 1) == d * x - d;
    assert d * (x + 1) == d * x + d;
    ProductSign(d, x - 1);
    ProductSign(d, x + 1);
  }

  lemma {:induction false} ProductSign(d: nat, x: int)
    ensures x >= 0 ==> d * x >= 0
    ensures x <= 0 ==> d * x <= 0
  {
  }

  /** Loading and storing gives the bytes back, so no two byte strings of a length stand for one number. */
  lemma {:induction false} StoreLoaded(bytes: seq<Byte>)
    ensures Bytes(|bytes|, LittleEndian(bytes)) == bytes
    ensures LittleEndian(bytes) < Power256(|bytes|)
  {
    if bytes != [] {
      StoreLoaded(bytes[1..]);
    }
  }

  /** Shifted right by m bytes. */
  function Shifted(a: nat, m: nat): nat
    decreases m
  {
    if m == 0 then a else Shifted(a / 256, m - 1)
  }

  /** A longer number is stored in two parts. */
  lemma {:induction false} BytesSplit(m: nat, n: nat, a: nat)
    ensures Bytes(m + n, a) == Bytes(m, a) + Bytes(n, Shifted(a, m))
  {
    if m > 0 {
      BytesSplit(m - 1, n, a / 256);
    }
  }

  /** Only the low part counts. */
  lemma {:induction false} BytesOfRemainder(n: nat, a: nat)
    ensures Bytes(n, a % Power256(n)) == Bytes(n, a)
  {
    LoadStored(n, a);
    StoreLoaded(Bytes(n, a));
  }

  // ------------------------------------------------------------------ loads

  function ToUint32(n: nat): nat {
    n % 0x1_0000_0000
  }

  /** The signed number with this bit pattern; half is 2 to the number of bits less one. */
  function TwosComplement(n: nat, half: nat): int
    requires n < 2 * half
  {
    if n < half then n else n - 2 * half
  }

  /** `((uint32) (A[k])) << ...` */
  function Part(b: Byte, weight: nat): nat {
    (b as int) * weight
  }

  function Uint2korr(a: seq<Byte>): nat
    requires |a| == 2
  {
    (a[0] + Part(a[1], 0x100)) % 0x1_0000
  }

  function Uint3korr(a: seq<Byte>): nat
    requires |a| == 3
  {
    ToUint32(a[0] + Part(a[1], 0x100) + Part(a[2], 0x1_0000))
  }

  function Uint4korr(a: seq<Byte>): nat
    requires |a| == 4
  {
    ToUint32(a[0] + Part(a[1], 0x100) + Part(a[2], 0x1_0000) + Part(a[3], 0x100_0000))
  }

  function ToUlonglong(n: nat): nat {
    n % 0x1_0000_0000_0000_0000
  }

  function Uint5korr(a: seq<Byte>): nat
    requires |a| == 5
  {
    ToUlonglong(Uint4korr(a[..4]) + Part(a[4], 0x1_0000_0000))
  }

  function Uint6korr(a: seq<Byte>): nat
    requires |a| == 6
  {
    ToUlonglong(Uint4korr(a[..4]) + Part(a[4], 0x1_0000_0000) + Part(a[5], 0x100_0000_0000))
  }

  function Uint8korr(a: seq<Byte>): nat
    requires |a| == 8
  {
    ToUlonglong(Uint4korr(a[..4]) + Uint4korr(a[4..]) * 0x1_0000_0000)
  }

  /** `|` on the bits of two numbers. */
  function BitOr(a: nat, b: nat): nat
    decreases a + b
  {
    if a == 0 && b == 0 then 0
    else (if a % 2 == 1 || b % 2 == 1 then 1 else 0) + 2 * BitOr(a / 2, b / 2)
  }

  lemma {:induction false} OrWithZero(a: nat)
    ensures BitOr(a, 0) == a
  {
    if a > 0 {
      OrWithZero(a / 2);
    }
  }

  /** A number shifted by k bits has no bit in common with one of k bits. */
  lemma {:induction false} OrIsSum(high: nat, k: nat, low: nat)
    requires low < Power2(k)
    ensures BitOr(high * Power2(k), low) == high * Power2(k) + low
  {
    if k == 0 {
      OrWithZero(high);
    } else {
      var half := high * Power2(k - 1);
      assert high * Power2(k) == 2 * half;
      OrIsSum(high, k - 1, low / 2);
      OrOfEven(half, low);
    }
  }

  lemma {:induction false} OrOfEven(half: nat, low: nat)
    ensures BitOr(2 * half, low) == low % 2 + 2 * BitOr(half, low / 2)
  {
    assert 2 * half / 2 == half && 2 * half % 2 == 0;
  }

  /** The bytes that `sint3korr` joins by `|` have no bit in common, and its test of bit 7 compares with 128. */
  lemma {:induction false} OrOfParts(a0: Byte, a1: Byte, a2: Byte)
    ensures BitOr(BitOr(Part(a2, 0x1_0000), Part(a1, 0x100)), a0) == Part(a2, 0x1_0000) + Part(a1, 0x100) + a0
    ensures BitOr(BitOr(BitOr(Part(255, 0x100_0000), Part(a2, 0x1_0000)), Part(a1, 0x100)), a0)
         == Part(255, 0x100_0000) + Part(a2, 0x1_0000) + Part(a1, 0x100) + a0
    ensures a2 / 128 % 2 == 1 <==> a2 >= 128
  {
    PowersOfTwo();
    OrIsSum(255, 24, Part(a2, 0x1_0000));
    OrIsSum(255 * 0x100 + a2, 16, Part(a1, 0x100));
    OrIsSum((255 * 0x100 + a2) * 0x100 + a1, 8, a0);
    OrIsSum(a2, 16, Part(a1, 0x100));
    OrIsSum(a2 * 0x100 + a1, 8, a0);
  }

  lemma {:induction false} PowersOfTwo()
    ensures Power2(8) == 0x100 && Power2(16) == 0x1_0000 && Power2(24) == 0x100_0000
  {
    assert Power2(8) == 2 * Power2(7) == 4 * Power2(6) == 8 * Power2(5) == 16 * Power2(4);
    PowerOfSum(8, 8);
    PowerOfSum(16, 8);
  }

  /** Bit 7 of the high byte decides what fills the fourth byte. */
  function JoinedBytes(a0: Byte, a1: Byte, a2: Byte): (n: nat)
    ensures n == Part(if a2 >= 128 then 255 else 0, 0x100_0000) + Part(a2, 0x1_0000) + Part(a1, 0x100) + a0
  {
    OrOfParts(a0, a1, a2);
    if a2 / 128 % 2 == 1 then
      BitOr(BitOr(BitOr(Part(255, 0x100_0000), Part(a2, 0x1_0000)), Part(a1, 0x100)), a0)
    else
      BitOr(BitOr(Part(a2, 0x1_0000), Part(a1, 0x100)), a0)
  }

  function Sint3korr(a: seq<Byte>): int
    requires |a| == 3
  {
    TwosComplement(JoinedBytes(a[0], a[1], a[2]), 0x8000_0000)
  }

  function Sint2korr(a: seq<Byte>): int
    requires |a| == 2
  {
    TwosComplement((a[0] + Part(a[1], 0x100)) % 0x1_0000, 0x8000)
  }

  function Sint4korr(a: seq<Byte>): int
    requires |a| == 4
  {
    TwosComplement(ToUint32(a[0] + Part(a[1], 0x100) + Part(a[2], 0x1_0000) + Part(a[3], 0x100_0000)), 0x8000_0000)
  }

  function Sint8korr(a: seq<Byte>): int
    requires |a| == 8
  {
    TwosComplement(Uint8korr(a), 0x8000_0000_0000_0000)
  }

  lemma {:induction false} SumOfOne(a: seq<Byte>)
    requires |a| == 1
    ensures LittleEndian(a) == a[0]
  {
    assert a[1..] == [];
  }

  lemma {:induction false} SumOfTwo(a: seq<Byte>)
    requires |a| == 2
    ensures LittleEndian(a) == a[0] + Part(a[1], 0x100) == Uint2korr(a)
  {
    SumOfOne(a[1..]);
  }

  lemma {:induction false} SumOfThree(a: seq<Byte>)
    requires |a| == 3
    ensures LittleEndian(a) == a[0] + Part(a[1], 0x100) + Part(a[2], 0x1_0000) == Uint3korr(a)
  {
    SumOfTwo(a[1..]);
  }

  lemma {:induction false} SumOfFour(a: seq<Byte>)
    requires |a| == 4
    ensures LittleEndian(a) == Uint4korr(a) < 0x1_0000_0000
  {
    SumOfThree(a[1..]);
  }

  lemma {:induction false} SumSplit(a: seq<Byte>, b: seq<Byte>)
    requires |a| == 4
    ensures LittleEndian(a + b) == LittleEndian(a) + 0x1_0000_0000 * LittleEndian(b)
  {
    var l := LittleEndian(b);
    SumStep(a, b, a[1..]);
    SumStep(a[1..], b, a[2..]);
    SumStep(a[2..], b, a[3..]);
    SumStep(a[3..], b, []);
    assert [] + b == b;
  }

  lemma {:induction false} SumStep(a: seq<Byte>, b: seq<Byte>, tail: seq<Byte>)
    requires a != [] && tail == a[1..]
    ensures LittleEndian(a) == a[0] + 256 * LittleEndian(tail)
    ensures LittleEndian(a + b) == a[0] + 256 * LittleEndian(tail + b)
  {
    assert (a + b)[1..] == tail + b;
  }

  /** Every load is the base-256 sum: the C types lose nothing on the way. */
  lemma {:induction false} LoadsAreLittleEndian(a: seq<Byte>)
    ensures |a| == 2 ==> Uint2korr(a) == LittleEndian(a)
    ensures |a| == 3 ==> Uint3korr(a) == LittleEndian(a)
    ensures |a| == 4 ==> Uint4korr(a) == LittleEndian(a)
    ensures |a| == 5 ==> Uint5korr(a) == LittleEndian(a)
    ensures |a| == 6 ==> Uint6korr(a) == LittleEndian(a)
    ensures |a| == 8 ==> Uint8korr(a) == LittleEndian(a)
  {
    if |a| == 2 {
      SumOfTwo(a);
    } else if |a| == 3 {
      SumOfThree(a);
    } else if |a| == 4 {
      SumOfFour(a);
    } else if |a| == 5 || |a| == 6 || |a| == 8 {
      LongLoads(a);
    }
  }

  lemma {:induction false} LongLoads(a: seq<Byte>)
    requires |a| == 5 || |a| == 6 || |a| == 8
    ensures |a| == 5 ==> Uint5korr(a) == LittleEndian(a)
    ensures |a| == 6 ==> Uint6korr(a) == LittleEndian(a)
    ensures |a| == 8 ==> Uint8korr(a) == LittleEndian(a)
  {
    if |a| == 5 {
      LoadOfFive(a);
    } else if |a| == 6 {
      LoadOfSix(a);
    } else {
      LoadOfEight(a);
    }
  }

  lemma {:induction false} LowAndHigh(a: seq<Byte>)
    requires |a| >= 4
    ensures LittleEndian(a) == Uint4korr(a[..4]) + 0x1_0000_0000 * LittleEndian(a[4..])
    ensures Uint4korr(a[..4]) < 0x1_0000_0000
  {
    assert a == a[..4] + a[4..];
    SumSplit(a[..4], a[4..]);
    SumOfFour(a[..4]);
  }

  lemma {:induction false} LoadOfFive(a: seq<Byte>)
    requires |a| == 5
    ensures Uint5korr(a) == LittleEndian(a)
  {
    LowAndHigh(a);
    SumOfOne(a[4..]);
  }

  lemma {:induction false} LoadOfSix(a: seq<Byte>)
    requires |a| == 6
    ensures Uint6korr(a) == LittleEndian(a)
  {
    LowAndHigh(a);
    SumOfTwo(a[4..]);
  }

  lemma {:induction false} LoadOfEight(a: seq<Byte>)
    requires |a| == 8
    ensures Uint8korr(a) == LittleEndian(a)
  {
    LowAndHigh(a);
    SumOfFour(a[4..]);
  }

  lemma {:induction false} PowersOf256()
    ensures Power256(2) == 0x1_0000 && Power256(3) == 0x100_0000 && Power256(4) == 0x1_0000_0000
    ensures Power256(5) == 0x100_0000_0000 && Power256(6) == 0x1_0000_0000_0000
    ensures Power256(8) == 0x1_0000_0000_0000_0000
  {
    assert Power256(4) == 256 * Power256(3) == 256 * (256 * Power256(2));
    assert Power256(8) == 256 * Power256(7) == 256 * (256 * Power256(6));
    assert Power256(6) == 256 * Power256(5) == 256 * (256 * Power256(4));
  }

  /** Storing and loading with the same width gives the number modulo 2^(8n). */
  lemma {:induction false} StoreThenLoad(a: nat)
    ensures Uint2korr(Bytes(2, a)) == a % 0x1_0000
    ensures Uint3korr(Bytes(3, a)) == a % 0x100_0000
    ensures Uint4korr(Bytes(4, a)) == a % 0x1_0000_0000
    ensures Uint5korr(Bytes(5, a)) == a % 0x100_0000_0000
    ensures Uint6korr(Bytes(6, a)) == a % 0x1_0000_0000_0000
    ensures Uint8korr(Bytes(8, a)) == a % 0x1_0000_0000_0000_0000
  {
    PowersOf256();
    StoreThenLoadOf(2, a);
    StoreThenLoadOf(3, a);
    StoreThenLoadOf(4, a);
    StoreThenLoadOf(5, a);
    StoreThenLoadOf(6, a);
    StoreThenLoadOf(8, a);
  }

  lemma {:induction false} StoreThenLoadOf(n: nat, a: nat)
    requires n in {2, 3, 4, 5, 6, 8}
    ensures LittleEndian(Bytes(n, a)) == a % Power256(n)
    ensures n == 2 ==> Uint2korr(Bytes(n, a)) == a % Power256(n)
    ensures n == 3 ==> Uint3korr(Bytes(n, a)) == a % Power256(n)
    ensures n == 4 ==> Uint4korr(Bytes(n, a)) == a % Power256(n)
    ensures n == 5 ==> Uint5korr(Bytes(n, a)) == a % Power256(n)
    ensures n == 6 ==> Uint6korr(Bytes(n, a)) == a % Power256(n)
    ensures n == 8 ==> Uint8korr(Bytes(n, a)) == a % Power256(n)
  {
    LoadStored(n, a);
    LoadsAreLittleEndian(Bytes(n, a));
  }

  /** The conversion of a signed number to the unsigned type of its width. */
  function BitPattern(v: int, half: nat): (w: nat)
    requires half > 0
    ensures w < 2 * half
  {
    v % (2 * half)
  }

  lemma {:induction false} BitPatternOf(v: int, half: nat)
    requires half > 0 && -(half as int) <= v < 2 * half
    ensures BitPattern(v, half) == if v < 0 then v + 2 * half else v
  {
    var m: nat := 2 * half;
    var q, r := v / m, v % m;
    assert v == m * q + r;
    MultipleGrows(m, q);
    MultipleGrows(m, q + 1);
    assert m * (q + 1) == m * q + m;
  }

  /** The signed loads undo the stores of every number of their width. */
  lemma {:induction false} SignedTwoBytes(v: int)
    requires -0x8000 <= v < 0x8000
    ensures Sint2korr(Bytes(2, BitPattern(v, 0x8000))) == v
  {
    PowersOf256();
    var w := BitPattern(v, 0x8000);
    StoreThenLoadOf(2, w);
    BitPatternOf(w, 0x8000);
    BitPatternOf(v, 0x8000);
  }

  lemma {:induction false} SignedFourBytes(v: int)
    requires -0x8000_0000 <= v < 0x8000_0000
    ensures Sint4korr(Bytes(4, BitPattern(v, 0x8000_0000))) == v
  {
    PowersOf256();
    var w := BitPattern(v, 0x8000_0000);
    StoreThenLoadOf(4, w);
    BitPatternOf(w, 0x8000_0000);
    BitPatternOf(v, 0x8000_0000);
  }

  lemma {:induction false} SignedEightBytes(v: int)
    requires -0x8000_0000_0000_0000 <= v < 0x8000_0000_0000_0000
    ensures Sint8korr(Bytes(8, BitPattern(v, 0x8000_0000_0000_0000))) == v
  {
    PowersOf256();
    var w := BitPattern(v, 0x8000_0000_0000_0000);
    StoreThenLoadOf(8, w);
    BitPatternOf(w, 0x8000_0000_0000_0000);
    BitPatternOf(v, 0x8000_0000_0000_0000);
  }

  /** `sint3korr` reads the three bytes as a signed number of 24 bits. */
  lemma {:induction false} ThreeBytesAreSigned(a: seq<Byte>)
    requires |a| == 3
    ensures LittleEndian(a) < 0x100_0000 && Sint3korr(a) == TwosComplement(LittleEndian(a), 0x80_0000)
  {
    SumOfThree(a);
    SignOfThree(a[0], a[1], a[2]);
  }

  lemma {:induction false} SignOfThree(a0: Byte, a1: Byte, a2: Byte)
    ensures var n := a0 + Part(a1, 0x100) + Part(a2, 0x1_0000);
      n < 0x100_0000 && TwosComplement(JoinedBytes(a0, a1, a2), 0x8000_0000) == TwosComplement(n, 0x80_0000)
  {
  }

  lemma {:induction false} LowThreeBytes(v: int)
    requires -0x80_0000 <= v < 0x80_0000
    ensures BitPattern(v, 0x8000_0000) % 0x100_0000 == if v < 0 then v + 0x100_0000 else v
  {
    var w := BitPattern(v, 0x8000_0000);
    BitPatternOf(v, 0x8000_0000);
    if v < 0 {
      RemainderIs(w, 0x100_0000, 255, v + 0x100_0000);
    } else {
      RemainderIs(w, 0x100_0000, 0, v);
    }
  }

  /** `sint3korr` undoes `int3store` for exactly the numbers of 24 bits. */
  lemma {:induction false} SignedThreeBytes(v: int)
    requires -0x8000_0000 <= v < 0x8000_0000
    ensures Sint3korr(Bytes(3, BitPattern(v, 0x8000_0000))) == v <==> -0x80_0000 <= v < 0x80_0000
  {
    var w := BitPattern(v, 0x8000_0000);
    PowersOf256();
    StoreThenLoadOf(3, w);
    ThreeBytesAreSigned(Bytes(3, w));
    if -0x80_0000 <= v < 0x80_0000 {
      LowThreeBytes(v);
    }
  }

  // ----------------------------------------------------------------- stores

  ghost predicate Stored(now: seq<Byte>, before: seq<Byte>, at: nat, bytes: seq<Byte>) {
    at + |bytes| <= |before| && now == before[..at] + bytes + before[at + |bytes|..]
  }

  method Int2store(t: array<Byte>, at: nat, a: nat)
    requires at + 2 <= t.Length
    modifies t
    ensures Stored(t[..], old(t[..]), at, Bytes(2, a))
  {
    t[at] := a % 256;
    t[at + 1] := a / 0x100 % 256;
    assert Bytes(2, a) == [a % 256] + Bytes(1, a / 256);
  }

  method Int3store(t: array<Byte>, at: nat, a: nat)
    requires at + 3 <= t.Length
    modifies t
    ensures Stored(t[..], old(t[..]), at, Bytes(3, a))
  {
    t[at] := a % 256;
    t[at + 1] := a / 0x100 % 256;
    t[at + 2] := a / 0x1_0000 % 256;
    FirstBytes(3, a);
  }

  method Int4store(t: array<Byte>, at: nat, a: nat)
    requires at + 4 <= t.Length
    modifies t
    ensures Stored(t[..], old(t[..]), at, Bytes(4, a))
  {
    t[at] := a % 256;
    t[at + 1] := a / 0x100 % 256;
    t[at + 2] := a / 0x1_0000 % 256;
    t[at + 3] := a / 0x100_0000 % 256;
    FirstBytes(4, a);
  }

  method Int5store(t: array<Byte>, at: nat, a: nat)
    requires at + 5 <= t.Length
    modifies t
    ensures Stored(t[..], old(t[..]), at, Bytes(5, a))
  {
    t[at] := a % 256;
    t[at + 1] := a / 0x100 % 256;
    t[at + 2] := a / 0x1_0000 % 256;
    t[at + 3] := a / 0x100_0000 % 256;
    t[at + 4] := a / 0x1_0000_0000 % 256;
    FirstBytes(5, a);
  }

  method Int6store(t: array<Byte>, at: nat, a: nat)
    requires at + 6 <= t.Length
    modifies t
    ensures Stored(t[..], old(t[..]), at, Bytes(6, a))
  {
    t[at] := a % 256;
    t[at + 1] := a / 0x100 % 256;
    t[at + 2] := a / 0x1_0000 % 256;
    t[at + 3] := a / 0x100_0000 % 256;
    t[at + 4] := a / 0x1_0000_0000 % 256;
    t[at + 5] := a / 0x100_0000_0000 % 256;
    FirstBytes(6, a);
  }

  /** Storing some bytes and then others right behind them is storing both. */
  lemma {:induction false} StoredTwice(
      before: seq<Byte>, half: seq<Byte>, after: seq<Byte>, at: nat, first: seq<Byte>, second: seq<Byte>)
    requires at + |first| + |second| <= |before| == |half| == |after|
    requires Stored(half, before, at, first) && Stored(after, half, at + |first|, second)
    ensures Stored(after, before, at, first + second)
  {
  }

  /** Two stores of four bytes. */
  method Int8store(t: array<Byte>, at: nat, a: nat)
    requires at + 8 <= t.Length
    modifies t
    ensures Stored(t[..], old(t[..]), at, Bytes(8, a))
  {
    var defTemp, defTemp2 := ToUint32(a), ToUint32(a / 0x1_0000_0000);
    Int4store(t, at, defTemp);
    ghost var half := t[..];
    Int4store(t, at + 4, defTemp2);
    HalvesOfEight(a);
    StoredTwice(old(t[..]), half, t[..], at, Bytes(4, defTemp), Bytes(4, defTemp2));
  }

  lemma {:induction false} HalvesOfEight(a: nat)
    ensures Bytes(8, a) == Bytes(4, ToUint32(a)) + Bytes(4, ToUint32(a / 0x1_0000_0000))
  {
    assert Power256(4) == 0x1_0000_0000;
    BytesOfRemainder(4, a);
    BytesOfRemainder(4, a / 0x1_0000_0000);
    BytesSplit(4, 4, a);
    ShiftsAreQuotients(a);
  }

  lemma {:induction false} ShiftsAreQuotients(a: nat)
    ensures Shifted(a, 1) == a / 0x100 && Shifted(a, 2) == a / 0x1_0000 && Shifted(a, 3) == a / 0x100_0000
    ensures Shifted(a, 4) == a / 0x1_0000_0000 && Shifted(a, 5) == a / 0x100_0000_0000
  {
    assert Shifted(a, 2) == Shifted(a / 256, 1) == a / 256 / 256;
    assert Shifted(a, 3) == Shifted(a / 256, 2) == a / 256 / 256 / 256;
    assert Shifted(a, 4) == Shifted(a / 256, 3) == a / 256 / 256 / 256 / 256;
    assert Shifted(a, 5) == Shifted(a / 256, 4) == a / 256 / 256 / 256 / 256 / 256;
  }

  /** Byte k of a number is what is left of it when it is shifted, cut to eight bits. */
  lemma {:induction false} ByteAt(n: nat, a: nat, k: nat)
    requires k < n
    ensures Bytes(n, a)[k] == Shifted(a, k) % 256
  {
    if k > 0 {
      ByteAt(n - 1, a / 256, k - 1);
    }
  }

  lemma {:induction false} FirstBytes(n: nat, a: nat)
    requires 3 <= n <= 6
    ensures var b := Bytes(n, a);
      && b[0] == a % 256 && b[1] == a / 0x100 % 256 && b[2] == a / 0x1_0000 % 256
      && (n > 3 ==> b[3] == a / 0x100_0000 % 256)
      && (n > 4 ==> b[4] == a / 0x1_0000_0000 % 256)
      && (n > 5 ==> b[5] == a / 0x100_0000_0000 % 256)
  {
    ShiftsAreQuotients(a);
    ByteAt(n, a, 0);
    ByteAt(n, a, 1);
    ByteAt(n, a, 2);
    if n > 3 { ByteAt(n, a, 3); }
    if n > 4 { ByteAt(n, a, 4); }
    if n > 5 { ByteAt(n, a, 5); }
  }
}
