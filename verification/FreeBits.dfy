/**
 The free-space counter: the number of zero bits of a bitmap, counted four bytes at a time
 through a table, and how it moves when a run of bits is set or cleared.
 */
module FreeBits {
  import opened Bitmap

  const CHUNK: nat := 65536

  function One(b: bool): nat {
    if b then 1 else 0
  }

  /** The zero bits of a byte. */
  function ZerosOf(x: Byte): nat {
    One(!BitOf(x, 0)) + One(!BitOf(x, 1)) + One(!BitOf(x, 2)) + One(!BitOf(x, 3))
    + One(!BitOf(x, 4)) + One(!BitOf(x, 5)) + One(!BitOf(x, 6)) + One(!BitOf(x, 7))
  }

  function Zeros(s: seq<Byte>): nat {
    if s == [] then 0 else Zeros(s[..|s| - 1]) + ZerosOf(s[|s| - 1])
  }

  lemma {:induction false} ZerosAppend(a: seq<Byte>, b: seq<Byte>)
    ensures Zeros(a + b) == Zeros(a) + Zeros(b)
  {
    if b == [] {
      assert a + b == a;
    } else {
      assert (a + b)[..|a + b| - 1] == a + b[..|b| - 1];
      ZerosAppend(a, b[..|b| - 1]);
    }
  }

  // ----- the population count of the source, in 32-bit arithmetic

  function Bcx(x: bv32): bv32 {
    x - ((x >> 1) & 0x77777777) - ((x >> 2) & 0x33333333) - ((x >> 3) & 0x11111111)
  }

  function BitCount(x: bv32): bv32 {
    ((Bcx(x) + (Bcx(x) >> 4)) & 0x0F0F0F0F) % 255
  }

  /** The bits of a half byte, added up. */
  function Half(x: bv32): bv32 {
    (x & 1) + ((x >> 1) & 1) + ((x >> 2) & 1) + ((x >> 3) & 1)
  }

  /** Each half byte of `Bcx` counts the bits of that half byte. */
  lemma HalfCounts(x: bv32)
    requires x < 256
    ensures Bcx(x) == Half(x) + (Half(x >> 4) << 4) && Half(x) <= 4 && Half(x >> 4) <= 4
  {
  }

  lemma FoldCounts(lo: bv32, hi: bv32)
    requires lo <= 4 && hi <= 4
    ensures (((lo + (hi << 4)) + ((lo + (hi << 4)) >> 4)) & 0x0F0F0F0F) == lo + hi
    ensures lo + hi <= 8
  {
  }

  lemma SmallRemainder(v: bv32)
    requires v <= 8
    ensures v % 255 == v
  {
    assert v == 0 || v == 1 || v == 2 || v == 3 || v == 4 || v == 5 || v == 6 || v == 7 || v == 8;
  }

  lemma BitCountIs(x: bv32)
    requires x < 256
    ensures BitCount(x) == Half(x) + Half(x >> 4) && Half(x) + Half(x >> 4) <= 8
  {
    hide Bcx, Half;
    HalfCounts(x);
    FoldCounts(Half(x), Half(x >> 4));
    SmallRemainder(Half(x) + Half(x >> 4));
  }

  // ----- from words to numbers

  lemma SmallNumber(v: bv32)
    requires v <= 8
    ensures v as int == if v == 0 then 0 else if v == 1 then 1 else if v == 2 then 2 else if v == 3 then 3 else if v == 4 then 4
                        else if v == 5 then 5 else if v == 6 then 6 else if v == 7 then 7 else 8
  {
  }

  lemma AddSmall(v: bv32, w: bv32)
    requires v <= 4 && w <= 4
    ensures v + w <= 8 && (v + w) as int == v as int + w as int
  {
    SmallNumber(v);
    SmallNumber(w);
    SmallNumber(v + w);
  }

  lemma HalfNumber(x: bv32)
    ensures Half(x) <= 4
    ensures Half(x) as int == One(x & 1 != 0) + One(x & 2 != 0) + One(x & 4 != 0) + One(x & 8 != 0)
  {
    var a, b, c, d := x & 1, (x >> 1) & 1, (x >> 2) & 1, (x >> 3) & 1;
    assert a <= 1 && b <= 1 && c <= 1 && d <= 1;
    AddSmall(a, b);
    AddSmall(a + b, c);
    AddSmall(a + b + c, d);
    SmallNumber(a);
    SmallNumber(b);
    SmallNumber(c);
    SmallNumber(d);
    assert (b != 0) == (x & 2 != 0) && (c != 0) == (x & 4 != 0) && (d != 0) == (x & 8 != 0);
  }

  lemma SameBits(x: Byte)
    ensures (x as bv32) < 256
    ensures var w := x as bv32;
            && ((w & 1 != 0) == BitOf(x, 0)) && ((w & 2 != 0) == BitOf(x, 1)) && ((w & 4 != 0) == BitOf(x, 2)) && ((w & 8 != 0) == BitOf(x, 3))
            && (((w >> 4) & 1 != 0) == BitOf(x, 4)) && (((w >> 4) & 2 != 0) == BitOf(x, 5))
            && (((w >> 4) & 4 != 0) == BitOf(x, 6)) && (((w >> 4) & 8 != 0) == BitOf(x, 7))
  {
  }

  /** What the table holds for a byte is its number of zero bits. */
  lemma TableEntry(x: Byte)
    ensures BitCount(x as bv32) <= 8 && 8 - BitCount(x as bv32) as int == ZerosOf(x)
  {
    hide BitCount, Half, BitOf;
    var w := x as bv32;
    SameBits(x);
    BitCountIs(w);
    HalfNumber(w);
    HalfNumber(w >> 4);
    AddSmall(Half(w), Half(w >> 4));
  }

  // ----- ntfs_init_lut256 and ntfs_attr_get_free_bits

  ghost predicate IsTable(lut: seq<nat>) {
    |lut| == 256 && forall j | 0 <= j < 256 :: lut[j] == ZerosOf(j as bv8)
  }

  method InitTable() returns (lut: array<nat>)
    ensures fresh(lut) && IsTable(lut[..])
  {
    hide BitCount, ZerosOf;
    lut := new nat[256](_ => 0);
    var i := 0;
    while i < 256
      invariant 0 <= i <= 256 && fresh(lut) && lut.Length == 256
      invariant forall j | 0 <= j < i :: lut[j] == ZerosOf(j as bv8)
    {
      TableEntry(i as bv8);
      lut[i] := 8 - BitCount((i as bv8) as bv32) as int;
      i := i + 1;
    }
  }

  lemma TableAt(lut: seq<nat>, x: Byte)
    requires IsTable(lut)
    ensures 0 <= x as int < 256 && lut[x as int] == ZerosOf(x)
  {
    hide ZerosOf;
    assert (x as int) as bv8 == x;
  }

  /** Four bytes read as one little-endian word. */
  function Word(a: Byte, b: Byte, c: Byte, d: Byte): bv32 {
    (a as bv32) | ((b as bv32) << 8) | ((c as bv32) << 16) | ((d as bv32) << 24)
  }

  lemma WordBytes(a: Byte, b: Byte, c: Byte, d: Byte)
    ensures var w := Word(a, b, c, d);
            && w & 255 < 256 && (w >> 8) & 255 < 256 && (w >> 16) & 255 < 256 && w >> 24 < 256
            && ((w & 255) as bv8) == a && (((w >> 8) & 255) as bv8) == b && (((w >> 16) & 255) as bv8) == c && ((w >> 24) as bv8) == d
  {
  }

  lemma ZerosFour(s: seq<Byte>, i: nat)
    requires 4 * i + 4 <= |s|
    ensures Zeros(s[4 * i..]) == ZerosOf(s[4 * i]) + ZerosOf(s[4 * i + 1]) + ZerosOf(s[4 * i + 2]) + ZerosOf(s[4 * i + 3]) + Zeros(s[4 * i + 4..])
  {
    hide ZerosOf, Zeros;
    var k := 4 * i;
    ZerosFirst(s, k);
    ZerosFirst(s, k + 1);
    ZerosFirst(s, k + 2);
    ZerosFirst(s, k + 3);
  }

  lemma ZerosFirst(s: seq<Byte>, k: nat)
    requires k < |s|
    ensures Zeros(s[k..]) == ZerosOf(s[k]) + Zeros(s[k + 1..])
  {
    assert s[k..] == [s[k]] + s[k + 1..];
    ZerosAppend([s[k]], s[k + 1..]);
    assert [s[k]][..0] == [];
    assert Zeros([s[k]]) == ZerosOf(s[k]);
  }

  /** The four table look-ups for one word. */
  method CountWord(w: bv32, lut: array<nat>, ghost a: Byte, ghost b: Byte, ghost c: Byte, ghost d: Byte) returns (n: nat)
    requires IsTable(lut[..]) && w == Word(a, b, c, d)
    ensures n == ZerosOf(a) + ZerosOf(b) + ZerosOf(c) + ZerosOf(d)
  {
    hide ZerosOf, IsTable, Word;
    ghost var table := lut[..];
    TableSize(table);
    WordBytes(a, b, c, d);
    TableAt(table, a);
    TableAt(table, b);
    TableAt(table, c);
    TableAt(table, d);
    n := lut[((w & 255) as bv8) as int] + lut[(((w >> 8) & 255) as bv8) as int]
         + lut[(((w >> 16) & 255) as bv8) as int] + lut[((w >> 24) as bv8) as int];
  }

  /** One chunk: whole words from the last to the first, then the bytes left over. */
  method CountChunk(buf: seq<Byte>, lut: array<nat>) returns (n: nat)
    requires IsTable(lut[..])
    ensures n == Zeros(buf)
  {
    hide ZerosOf, Zeros, IsTable, Word;
    var br := |buf|;
    n := 0;
    ghost var whole := buf[..br / 4 * 4];
    var p := br / 4 - 1;
    ZerosNone();
    assert whole[4 * (p + 1)..] == [];
    while p >= 0
      invariant -1 <= p < br / 4 && n == Zeros(whole[4 * (p + 1)..])
      decreases p
    {
      ZerosFour(whole, p);
      var m := CountWord(Word(buf[4 * p], buf[4 * p + 1], buf[4 * p + 2], buf[4 * p + 3]), lut,
                         buf[4 * p], buf[4 * p + 1], buf[4 * p + 2], buf[4 * p + 3]);
      n := n + m;
      p := p - 1;
    }
    assert whole[0..] == whole;
    assert buf == whole + buf[br / 4 * 4..];
    ZerosAppend(whole, buf[br / 4 * 4..]);
    n := CountTail(buf, lut, n);
  }

  lemma ZerosNone()
    ensures Zeros([]) == 0
  {
  }

  lemma TableSize(lut: seq<nat>)
    requires IsTable(lut)
    ensures |lut| == 256
  {
  }

  /** One table look-up. */
  method CountByte(x: Byte, lut: array<nat>, n0: nat) returns (n: nat)
    requires IsTable(lut[..])
    ensures n == n0 + ZerosOf(x)
  {
    hide ZerosOf, IsTable;
    TableSize(lut[..]);
    TableAt(lut[..], x);
    n := n0 + lut[x as int];
  }

  /** The switch on the length modulo 4, with its fall-through. */
  method CountTail(buf: seq<Byte>, lut: array<nat>, n0: nat) returns (n: nat)
    requires IsTable(lut[..])
    ensures n == n0 + Zeros(buf[|buf| / 4 * 4..])
  {
    hide ZerosOf, Zeros, IsTable;
    var br := |buf|;
    n := n0;
    ZerosNone();
    assert buf[br..] == [];
    if br % 4 == 3 {
      ZerosFirst(buf, br - 3);
      n := CountByte(buf[br - 3], lut, n);
    }
    if br % 4 >= 2 {
      ZerosFirst(buf, br - 2);
      n := CountByte(buf[br - 2], lut, n);
    }
    if br % 4 >= 1 {
      ZerosFirst(buf, br - 1);
      n := CountByte(buf[br - 1], lut, n);
    }
  }

  /** The number of zero bits of the whole bitmap; -1 for an empty one. */
  method GetFreeBits(data: seq<Byte>) returns (r: int)
    ensures r == if data == [] then -1 else Zeros(data)
  {
    hide ZerosOf, Zeros, IsTable;
    var lut := InitTable();
    var total, free := 0, 0;
    ZerosNone();
    while true
      invariant 0 <= total <= |data| && free == Zeros(data[..total]) && IsTable(lut[..])
      decreases |data| - total
    {
      var br := if |data| - total < CHUNK then |data| - total else CHUNK;
      if br <= 0 {
        break;
      }
      var n := CountChunk(data[total..total + br], lut);
      ZerosAppend(data[..total], data[total..total + br]);
      assert data[..total + br] == data[..total] + data[total..total + br];
      total := total + br;
      free := free + n;
    }
    assert data[..total] == data;
    if total == 0 {
      return -1;
    }
    return free;
  }

  // ----- how a run update moves the counter

  /** The zero bits among [lo, hi). */
  function ZeroBits(s: seq<Byte>, lo: nat, hi: nat): nat
    requires lo <= hi <= 8 * |s|
    decreases hi
  {
    if lo == hi then 0 else ZeroBits(s, lo, hi - 1) + One(!Bit(s, hi - 1))
  }

  lemma {:induction false} ZeroBitsSplit(s: seq<Byte>, lo: nat, mid: nat, hi: nat)
    requires lo <= mid <= hi <= 8 * |s|
    ensures ZeroBits(s, lo, hi) == ZeroBits(s, lo, mid) + ZeroBits(s, mid, hi)
    decreases hi
  {
    if mid < hi { ZeroBitsSplit(s, lo, mid, hi - 1); }
  }

  lemma {:induction false} ZeroBitsSame(s: seq<Byte>, t: seq<Byte>, lo: nat, hi: nat)
    requires lo <= hi <= 8 * |s| && hi <= 8 * |t| && forall i | lo <= i < hi :: Bit(s, i) == Bit(t, i)
    ensures ZeroBits(s, lo, hi) == ZeroBits(t, lo, hi)
    decreases hi
  {
    hide Bit;
    if lo < hi { ZeroBitsSame(s, t, lo, hi - 1); }
  }

  lemma {:induction false} ZeroBitsAll(s: seq<Byte>, lo: nat, hi: nat, value: bool)
    requires lo <= hi <= 8 * |s| && forall i | lo <= i < hi :: Bit(s, i) == value
    ensures ZeroBits(s, lo, hi) == if value then 0 else hi - lo
    decreases hi
  {
    hide Bit;
    if lo < hi { ZeroBitsAll(s, lo, hi - 1, value); }
  }

  function ZerosBelow(x: Byte, m: nat): nat
    requires m <= 8
  {
    if m == 0 then 0 else ZerosBelow(x, m - 1) + One(!BitOf(x, m - 1))
  }

  lemma ZerosBelowAll(x: Byte)
    ensures ZerosBelow(x, 8) == ZerosOf(x)
  {
    hide BitOf, One;
    assert ZerosBelow(x, 1) == One(!BitOf(x, 0));
    assert ZerosBelow(x, 2) == One(!BitOf(x, 0)) + One(!BitOf(x, 1));
    assert ZerosBelow(x, 4) == ZerosBelow(x, 2) + One(!BitOf(x, 2)) + One(!BitOf(x, 3));
    assert ZerosBelow(x, 6) == ZerosBelow(x, 4) + One(!BitOf(x, 4)) + One(!BitOf(x, 5));
  }

  lemma {:induction false} ZeroBitsBelow(s: seq<Byte>, j: nat, m: nat)
    requires j < |s| && m <= 8
    ensures ZeroBits(s, 8 * j, 8 * j + m) == ZerosBelow(s[j], m)
    decreases m
  {
    hide BitOf, One;
    if m > 0 {
      ZeroBitsBelow(s, j, m - 1);
      assert (8 * j + m - 1) / 8 == j && (8 * j + m - 1) % 8 == m - 1;
    }
  }

  lemma ZeroBitsByte(s: seq<Byte>, j: nat)
    requires j < |s|
    ensures ZeroBits(s, 8 * j, 8 * j + 8) == ZerosOf(s[j])
  {
    hide ZeroBits, ZerosBelow, ZerosOf;
    ZeroBitsBelow(s, j, 8);
    ZerosBelowAll(s[j]);
  }

  /** The byte-wise count is the count of zero bits. */
  lemma {:induction false} ZerosAreBits(s: seq<Byte>, n: nat)
    requires n <= |s|
    ensures Zeros(s[..n]) == ZeroBits(s, 0, 8 * n)
  {
    hide ZerosOf, BitOf, Bit;
    if n > 0 {
      ZerosAreBits(s, n - 1);
      ZeroBitsSplit(s, 0, 8 * (n - 1), 8 * n);
      ZeroBitsByte(s, n - 1);
      assert s[..n][..n - 1] == s[..n - 1];
    }
  }

  /**
   Setting a run takes exactly the zero bits of the run from the free count; clearing a run
   adds exactly its one bits.
   */
  lemma RunMovesCount(s: seq<Byte>, t: seq<Byte>, lo: nat, hi: nat, value: bool)
    requires RunSet(s, t, lo, hi, value) && lo <= hi <= 8 * |s|
    ensures Zeros(t) == Zeros(s) - ZeroBits(s, lo, hi) + if value then 0 else hi - lo
  {
    hide Bit, Zeros;
    var n := 8 * |s|;
    assert s[..|s|] == s && t[..|t|] == t;
    ZerosAreBits(s, |s|);
    ZerosAreBits(t, |t|);
    ZeroBitsSplit(s, 0, lo, n);
    ZeroBitsSplit(s, lo, hi, n);
    ZeroBitsSplit(t, 0, lo, n);
    ZeroBitsSplit(t, lo, hi, n);
    ZeroBitsSame(s, t, 0, lo);
    ZeroBitsSame(s, t, hi, n);
    ZeroBitsAll(t, lo, hi, value);
  }
}
