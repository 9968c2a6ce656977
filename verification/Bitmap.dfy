/**
 Cluster and record bitmaps: single bits of a byte buffer, and a run of bits set or cleared
 in an attribute through a window of at most 8 KiB.
 */
module Bitmap {
  import opened Sequences

  type Byte = bv8

  const WINDOW: nat := 8192

  // ----- bits of a byte

  /** `1 << k` */
  function Mask(k: nat): Byte
    requires k < 8
  {
    if k == 0 then 1 else if k == 1 then 2 else if k == 2 then 4 else if k == 3 then 8
    else if k == 4 then 16 else if k == 5 then 32 else if k == 6 then 64 else 128
  }

  predicate BitOf(x: Byte, k: nat)
    requires k < 8
  {
    x & Mask(k) != 0
  }

  function WithBit(x: Byte, k: nat, value: bool): Byte
    requires k < 8
  {
    if value then x | Mask(k) else x & !Mask(k)
  }

  function Fill(value: bool): Byte {
    if value then 0xff else 0
  }

  lemma WithBitIs(x: Byte, k: nat, value: bool, j: nat)
    requires k < 8 && j < 8
    ensures BitOf(WithBit(x, k, value), j) == if j == k then value else BitOf(x, j)
  {
  }

  lemma FillIs(value: bool, j: nat)
    requires j < 8
    ensures BitOf(Fill(value), j) == value
  {
  }

  // ----- bits of a buffer

  predicate Bit(s: seq<Byte>, i: nat)
    requires i < 8 * |s|
  {
    BitOf(s[i / 8], i % 8)
  }

  /** `t` is `s` with the bits of [lo, hi) set to `value`. */
  ghost predicate RunSet(s: seq<Byte>, t: seq<Byte>, lo: int, hi: int, value: bool) {
    |t| == |s| && forall i | 0 <= i < 8 * |s| :: Bit(t, i) == if lo <= i < hi then value else Bit(s, i)
  }

  /** Byte `x` is what byte `j` of `s` becomes in such a run. */
  ghost predicate ByteSet(s: seq<Byte>, j: nat, x: Byte, lo: int, hi: int, value: bool)
    requires j < |s|
  {
    forall k | 0 <= k < 8 :: BitOf(x, k) == if lo <= 8 * j + k < hi then value else BitOf(s[j], k)
  }

  lemma RunByBytes(s: seq<Byte>, t: seq<Byte>, lo: int, hi: int, value: bool)
    requires |t| == |s| && forall j | 0 <= j < |s| :: ByteSet(s, j, t[j], lo, hi, value)
    ensures RunSet(s, t, lo, hi, value)
  {
    forall i | 0 <= i < 8 * |s|
      ensures Bit(t, i) == if lo <= i < hi then value else Bit(s, i)
    {
      assert ByteSet(s, i / 8, t[i / 8], lo, hi, value);
      assert i == 8 * (i / 8) + i % 8;
    }
  }

  lemma ByteOutside(s: seq<Byte>, j: nat, lo: int, hi: int, value: bool)
    requires j < |s| && (8 * j + 8 <= lo || hi <= 8 * j)
    ensures ByteSet(s, j, s[j], lo, hi, value)
  {
  }

  lemma ByteInside(s: seq<Byte>, j: nat, lo: int, hi: int, value: bool)
    requires j < |s| && lo <= 8 * j && 8 * j + 8 <= hi
    ensures ByteSet(s, j, Fill(value), lo, hi, value)
  {
    forall k | 0 <= k < 8
      ensures BitOf(Fill(value), k) == value
    {
      FillIs(value, k);
    }
  }

  /** One more bit of the byte, at either end of those set already. */
  lemma ByteStep(s: seq<Byte>, j: nat, x: Byte, lo: int, hi: int, lo': int, hi': int, k: nat, value: bool)
    requires j < |s| && k < 8 && ByteSet(s, j, x, lo, hi, value) && lo <= hi
    requires (lo' == lo && hi == 8 * j + k && hi' == hi + 1) || (hi' == hi && lo' == 8 * j + k && lo == lo' + 1)
    ensures ByteSet(s, j, WithBit(x, k, value), lo', hi', value)
  {
    forall m | 0 <= m < 8
      ensures BitOf(WithBit(x, k, value), m) == if lo' <= 8 * j + m < hi' then value else BitOf(s[j], m)
    {
      WithBitIs(x, k, value, m);
    }
  }

  /** Bits of the run beyond this byte do not matter to it. */
  lemma ByteSame(s: seq<Byte>, j: nat, x: Byte, lo: int, hi: int, lo': int, hi': int, value: bool)
    requires j < |s| && ByteSet(s, j, x, lo, hi, value)
    requires lo' == lo || (lo <= 8 * j && lo' <= 8 * j)
    requires hi' == hi || (hi >= 8 * j + 8 && hi' >= 8 * j + 8)
    ensures ByteSet(s, j, x, lo', hi', value)
  {
  }

  // ----- ntfs_bit_set, ntfs_bit_get and ntfs_bit_get_and_set

  method BitSet(bitmap: array<Byte>, bit: nat, value: nat)
    requires bit < 8 * bitmap.Length
    modifies bitmap
    ensures value > 1 ==> bitmap[..] == old(bitmap[..])
    ensures value <= 1 ==> RunSet(old(bitmap[..]), bitmap[..], bit, bit + 1, value == 1)
  {
    if value > 1 {
      return;
    }
    ghost var s := bitmap[..];
    var j, k := bit / 8, bit % 8;
    if value == 0 {
      bitmap[j] := bitmap[j] & !Mask(k);
    } else {
      bitmap[j] := bitmap[j] | Mask(k);
    }
    OneByte(s, j, k, value == 1);
    assert bitmap[..] == s[j := WithBit(s[j], k, value == 1)];
  }

  lemma OneByte(s: seq<Byte>, j: nat, k: nat, value: bool)
    requires j < |s| && k < 8
    ensures RunSet(s, s[j := WithBit(s[j], k, value)], 8 * j + k, 8 * j + k + 1, value)
  {
    var t := s[j := WithBit(s[j], k, value)];
    forall i | 0 <= i < |s|
      ensures ByteSet(s, i, t[i], 8 * j + k, 8 * j + k + 1, value)
    {
      if i == j {
        ByteStep(s, j, s[j], 8 * j + k, 8 * j + k, 8 * j + k, 8 * j + k + 1, k, value);
      }
    }
    RunByBytes(s, t, 8 * j + k, 8 * j + k + 1, value);
  }

  method BitGetAndSet(bitmap: array<Byte>, bit: nat, value: nat) returns (r: int)
    requires bit < 8 * bitmap.Length
    modifies bitmap
    ensures value > 1 ==> r == -1 && bitmap[..] == old(bitmap[..])
    ensures value <= 1 ==> r == (if old(Bit(bitmap[..], bit)) then 1 else 0)
                           && RunSet(old(bitmap[..]), bitmap[..], bit, bit + 1, value == 1)
  {
    hide Mask, RunSet, WithBit, BitOf;
    if value > 1 {
      return -1;
    }
    ghost var s := bitmap[..];
    var j, k := bit / 8, bit % 8;
    r := if BitOf(bitmap[j], k) then 1 else 0;
    if value != r {
      bitmap[j] := bitmap[j] ^ Mask(k);
    }
    Flipped(s[j], k, value == 1);
    OneByte(s, j, k, value == 1);
    assert bitmap[..] == s[j := WithBit(s[j], k, value == 1)];
  }

  lemma Flipped(x: Byte, k: nat, value: bool)
    requires k < 8
    ensures WithBit(x, k, value) == if BitOf(x, k) == value then x else x ^ Mask(k)
  {
  }

  // ----- ntfs_bitmap_set_bits_in_run

  /** Bytes before `done` have been dealt with, the others are as they were. */
  ghost predicate Written(s: seq<Byte>, t: seq<Byte>, done: int, lo: int, hi: int, value: bool) {
    && |t| == |s| && 0 <= done <= |s|
    && (forall j | 0 <= j < done :: ByteSet(s, j, t[j], lo, hi, value))
    && (forall j | done <= j < |s| :: t[j] == s[j])
  }

  /** The first `n` bytes of the buffer are ready for position `w`. */
  ghost predicate Ready(s: seq<Byte>, buf: seq<Byte>, w: int, n: int, lo: int, hi: int, value: bool) {
    && 0 <= n <= |buf| && 0 <= w && w + n <= |s|
    && (forall j | 0 <= j < n :: ByteSet(s, w + j, buf[j], lo, hi, value))
  }

  lemma WrittenAll(s: seq<Byte>, t: seq<Byte>, done: int, lo: int, hi: int, value: bool)
    requires Written(s, t, done, lo, hi, value) && hi <= 8 * done
    ensures RunSet(s, t, lo, hi, value)
  {
    hide ByteSet, RunSet;
    forall j | 0 <= j < |s|
      ensures ByteSet(s, j, t[j], lo, hi, value)
    {
      if j >= done { ByteOutside(s, j, lo, hi, value); }
    }
    RunByBytes(s, t, lo, hi, value);
  }

  /** ntfs_attr_pwrite of the window. */
  method WriteWindow(data: array<Byte>, buf: array<Byte>, w: int, n: int, ghost s: seq<Byte>, ghost lo: int, ghost hi: int, ghost value: bool)
    requires data != buf && Written(s, data[..], w, lo, hi, value) && Ready(s, buf[..], w, n, lo, hi, value)
    modifies data
    ensures Written(s, data[..], w + n, lo, hi, value)
  {
    hide ByteSet;
    ghost var t := data[..];
    forall j | 0 <= j < n {
      data[w + j] := buf[j];
    }
    ghost var t' := data[..];
    forall j | 0 <= j < w + n
      ensures ByteSet(s, j, t'[j], lo, hi, value)
    {
      if j >= w {
        assert t'[w + (j - w)] == buf[..][j - w];
        assert ByteSet(s, w + (j - w), buf[..][j - w], lo, hi, value);
      } else {
        assert t'[j] == t[j];
      }
    }
  }

  /** The bits of a partial first byte; the count runs to -1 if the run ends inside it. */
  method FirstByte(x0: Byte, start: nat, count0: nat, value: bool, ghost s: seq<Byte>) returns (x: Byte, count: int)
    requires start % 8 != 0 && start / 8 < |s| && s[start / 8] == x0
    ensures ByteSet(s, start / 8, x, start, start + count0, value)
    ensures count == if count0 < 8 - start % 8 then -1 else count0 - (8 - start % 8)
  {
    hide ByteSet, WithBit;
    var bit := start % 8;
    ghost var j := start / 8;
    x, count := x0, count0;
    ByteEmpty(s, j, start, value);
    while bit % 8 != 0 && count != 0
      invariant start % 8 <= bit <= 8 && count == count0 - (bit - start % 8) >= 0
      invariant ByteSet(s, j, x, start, 8 * j + bit, value)
      decreases 8 - bit
    {
      ByteStep(s, j, x, start, 8 * j + bit, start, 8 * j + bit + 1, bit, value);
      x := WithBit(x, bit, value);
      bit := bit + 1;
      count := count - 1;
    }
    if bit % 8 != 0 {
      count := count - 1;
    } else {
      ByteSame(s, j, x, start, 8 * j + 8, start, start + count0, value);
    }
  }

  lemma ByteEmpty(s: seq<Byte>, j: nat, lo: int, value: bool)
    requires j < |s|
    ensures ByteSet(s, j, s[j], lo, lo, value)
  {
  }

  /** The low bits of a partial last byte. */
  method LastByte(x0: Byte, bit0: nat, count0: int, value: bool, ghost s: seq<Byte>, ghost j: nat, ghost lo: int)
    returns (x: Byte, count: int)
    requires 0 < bit0 < 8 && bit0 <= count0 && j < |s| && s[j] == x0 && lo <= 8 * j
    ensures ByteSet(s, j, x, lo, 8 * j + bit0, value) && count == count0 - bit0
  {
    hide ByteSet, WithBit;
    var bit := bit0;
    x, count := x0, count0;
    ByteEmpty(s, j, 8 * j + bit0, value);
    while bit != 0 && count != 0
      invariant 0 <= bit <= bit0 && count == count0 - (bit0 - bit)
      invariant ByteSet(s, j, x, 8 * j + bit, 8 * j + bit0, value)
      decreases bit
    {
      count := count - 1;
      bit := bit - 1;
      ByteStep(s, j, x, 8 * j + bit + 1, 8 * j + bit0, 8 * j + bit, 8 * j + bit0, bit, value);
      x := WithBit(x, bit, value);
    }
    ByteSame(s, j, x, 8 * j, 8 * j + bit0, lo, 8 * j + bit0, value);
  }

  /** Between two windows: what the next one starts from. */
  ghost predicate Pending(s: seq<Byte>, buf: seq<Byte>, w: int, first: int, start: int, count: int, bufsize: int, lo: int, hi: int, value: bool) {
    && 0 <= first <= 1 && start == 8 * (w + first) && 0 <= w && lo <= start
    && (if count < 0 then count == -1 && hi <= start else start + count == hi) && hi <= 8 * |s|
    && bufsize == Min(WINDOW, (count + 7) / 8 + first) && bufsize <= |buf| && w + first <= |s| && (first == 1 ==> |buf| > 0)
    && (first == 1 ==> w < |s| && ByteSet(s, w, buf[0], lo, hi, value))
    && (forall j | first <= j < bufsize :: buf[j] == Fill(value))
  }

  /** A window without the last byte of the run, or with no partial last byte, is ready. */
  lemma FullWindow(s: seq<Byte>, buf: seq<Byte>, w: int, first: int, start: int, count: int, bufsize: int, lo: int, hi: int, value: bool)
    requires Pending(s, buf, w, first, start, count, bufsize, lo, hi, value)
    requires count <= 0 || count % 8 == 0 || (count + 7) / 8 + first > bufsize
    ensures Ready(s, buf, w, bufsize, lo, hi, value)
  {
    hide ByteSet;
    assert count > 0 ==> 8 * (bufsize - first) <= count;
    forall j | 0 <= j < bufsize
      ensures ByteSet(s, w + j, buf[j], lo, hi, value)
    {
      if j >= first { ByteInside(s, w + j, lo, hi, value); }
    }
  }

  /** So is one whose last byte has been completed. */
  lemma LastWindow(s: seq<Byte>, buf: seq<Byte>, x: Byte, w: int, first: int, start: int, count: int, bufsize: int, lo: int, hi: int, value: bool)
    requires Pending(s, buf, w, first, start, count, bufsize, lo, hi, value)
    requires count > 0 && count % 8 != 0 && (count + 7) / 8 + first <= bufsize
    requires (start + count) / 8 < |s| && ByteSet(s, (start + count) / 8, x, lo, hi, value)
    ensures bufsize == (count + 7) / 8 + first && bufsize > first && w + bufsize - 1 == (start + count) / 8
    ensures Ready(s, buf[bufsize - 1 := x], w, bufsize, lo, hi, value)
  {
    hide ByteSet;
    var buf' := buf[bufsize - 1 := x];
    assert w + bufsize - 1 == (start + count) / 8;
    forall j | 0 <= j < bufsize
      ensures ByteSet(s, w + j, buf'[j], lo, hi, value)
    {
      if first <= j < bufsize - 1 { ByteInside(s, w + j, lo, hi, value); }
    }
  }

  /** The buffer for the first window, with the first byte completed if it is partial. */
  method FirstWindow(data: array<Byte>, start_bit: nat, count_: nat, value: bool)
    returns (buf: array<Byte>, bufsize: int, firstbyte: int, start: int, count: int)
    requires start_bit + count_ <= 8 * data.Length
    ensures fresh(buf) && start >= 8 * firstbyte && start % 8 == 0 && 0 <= firstbyte <= 1
    ensures var w := start / 8 - firstbyte;
            && Pending(data[..], buf[..], w, firstbyte, start, count, bufsize, start_bit, start_bit + count_, value)
            && Written(data[..], data[..], w, start_bit, start_bit + count_, value)
  {
    hide ByteSet, Fill, Written;
    start, count := start_bit, count_;
    var bit := start % 8;
    firstbyte := if bit != 0 then 1 else 0;
    bufsize := (count - (if bit != 0 then 8 - bit else 0) + 7) / 8 + firstbyte;
    if bufsize > WINDOW {
      bufsize := WINDOW;
    }
    buf := new Byte[bufsize](_ => Fill(value));
    if bit != 0 {
      var x;
      x, count := FirstByte(data[start / 8], start, count, value, data[..]);
      buf[0] := x;
      start := (start + 7) / 8 * 8;
    }
    WrittenNone(data[..], start / 8 - firstbyte, start_bit, start_bit + count_, value);
  }

  /** The partial last byte, if there is one and it falls into the window. */
  method LastPart(data: array<Byte>, buf: array<Byte>, firstbyte: int, start: int, count0: int, bufsize: int, bit0: int, value: bool,
                  ghost s: seq<Byte>, ghost w: int, ghost lo: int, ghost hi: int)
    returns (count: int, bit: int, lastbyte: int)
    requires data != buf && Pending(s, buf[..], w, firstbyte, start, count0, bufsize, lo, hi, value) && Written(s, data[..], w, lo, hi, value)
    requires count0 > 0 ==> bit0 == count0 % 8
    modifies buf
    ensures Ready(s, buf[..], w, bufsize, lo, hi, value)
    ensures lastbyte == 0 ==> count == count0 && bit == bit0 && buf[..] == old(buf[..])
                              && (count > 0 ==> 8 * (bufsize - firstbyte) <= count)
    ensures lastbyte != 0 ==> lastbyte == 1 && count0 > 0 && bufsize > firstbyte && count == 8 * (bufsize - firstbyte - 1) && hi <= 8 * (w + bufsize)
  {
    hide ByteSet, Fill, Ready;
    count, bit, lastbyte := count0, bit0, 0;
    ghost var buf0 := buf[..];
    if count > 0 && bit != 0 {
      var lastbyte_pos := (count + 7) / 8 + firstbyte;
      if lastbyte_pos == 0 {
        assert false;
      }
      if lastbyte_pos <= bufsize {
        var x;
        x, count := LastByte(data[(start + count) / 8], bit, count, value, s, (start + count) / 8, lo);
        LastWindow(s, buf0, x, w, firstbyte, start, count0, bufsize, lo, hi, value);
        buf[lastbyte_pos - 1] := x;
        assert buf[..] == buf0[bufsize - 1 := x];
        bit := 0;
        lastbyte := 1;
        return;
      }
    }
    FullWindow(s, buf0, w, firstbyte, start, count, bufsize, lo, hi, value);
  }

  lemma NextPending(s: seq<Byte>, buf: seq<Byte>, buf': seq<Byte>, w: int, first: int, start: int, count: int, bufsize: int, lo: int, hi: int, value: bool)
    requires Pending(s, buf, w, first, start, count, bufsize, lo, hi, value) && count > 0 && 8 * (bufsize - first) <= count
    requires buf' == if first != 0 then buf[0 := Fill(value)] else buf
    ensures var tmp := 8 * (bufsize - first);
            && tmp > 0 && (count - tmp) % 8 == count % 8 && (count == tmp ==> hi <= 8 * (w + bufsize))
            && Pending(s, buf', w + bufsize, 0, start + tmp, count - tmp, Min(bufsize, (count - tmp + 7) / 8), lo, hi, value)
  {
    hide ByteSet, Fill;
  }

  method SetBitsInRun(data: array<Byte>, start_bit: int, count_: int, value: bool) returns (ret: int)
    requires start_bit >= 0 && count_ >= 0 ==> start_bit + count_ <= 8 * data.Length
    modifies data
    ensures start_bit < 0 || count_ < 0 ==> ret == -1 && data[..] == old(data[..])
    ensures start_bit >= 0 && count_ >= 0 ==> ret == 0 && RunSet(old(data[..]), data[..], start_bit, start_bit + count_, value)
  {
    hide ByteSet, RunSet, Fill, Written, Ready, Pending;
    if start_bit < 0 || count_ < 0 {
      return -1;
    }
    ghost var s, lo, hi := data[..], start_bit, start_bit + count_;
    var buf, bufsize, firstbyte, start, count := FirstWindow(data, start_bit, count_, value);
    ghost var w := start / 8 - firstbyte;
    var lastbyte := 0;
    var bit := if count >= 0 then count % 8 else 7;
    var more := true;
    while more
      invariant fresh(buf) && Written(s, data[..], w, lo, hi, value)
      invariant more ==> lastbyte == 0 && Pending(s, buf[..], w, firstbyte, start, count, bufsize, lo, hi, value)
      invariant more && count > 0 ==> bit == count % 8
      invariant !more ==> hi <= 8 * w
      decreases more, count
    {
      ghost var buf0 := buf[..];
      PendingFacts(s, buf[..], w, firstbyte, start, count, bufsize, lo, hi, value);
      ghost var count0 := count;
      count, bit, lastbyte := LastPart(data, buf, firstbyte, start, count, bufsize, bit, value, s, w, lo, hi);
      WriteWindow(data, buf, start / 8 - firstbyte, bufsize, s, lo, hi, value);
      if lastbyte == 0 && count > 0 {
        NextPending(s, buf0, if firstbyte != 0 then buf0[0 := Fill(value)] else buf0, w, firstbyte, start, count, bufsize, lo, hi, value);
      }
      w := w + bufsize;
      var tmp := (bufsize - firstbyte - lastbyte) * 8;
      if firstbyte != 0 {
        firstbyte := 0;
        buf[0] := Fill(value);
      }
      start := start + tmp;
      count := count - tmp;
      if bufsize > (count + 7) / 8 {
        bufsize := (count + 7) / 8;
      }
      if lastbyte != 0 && count != 0 {
        assert false;
      }
      more := count > 0;
    }
    WrittenAll(s, data[..], w, lo, hi, value);
    ret := 0;
  }

  lemma PendingFacts(s: seq<Byte>, buf: seq<Byte>, w: int, first: int, start: int, count: int, bufsize: int, lo: int, hi: int, value: bool)
    requires Pending(s, buf, w, first, start, count, bufsize, lo, hi, value)
    ensures 0 <= first <= 1 && w == start / 8 - first && 0 <= bufsize <= |buf| && (first == 1 ==> |buf| > 0)
    ensures bufsize == Min(WINDOW, (count + 7) / 8 + first)
    ensures count <= 0 ==> bufsize == first && hi <= start && start == 8 * (w + first) && count >= -1
    ensures count > 0 ==> bufsize > first
  {
  }

  lemma WrittenNone(s: seq<Byte>, w: int, lo: int, hi: int, value: bool)
    requires 0 <= w <= |s| && 8 * w <= lo
    ensures Written(s, s, w, lo, hi, value)
  {
    hide ByteSet;
    forall j | 0 <= j < w
      ensures ByteSet(s, j, s[j], lo, hi, value)
    {
      ByteOutside(s, j, lo, hi, value);
    }
  }
}
