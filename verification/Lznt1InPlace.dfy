/** ntfs_decompress as it runs: three nested loops moving `pos` over the block and `d` over `dest`. */
module Lznt1InPlace {
  import opened Bytes
  import opened Lznt1Format
  import opened Lznt1Decoder

  datatype Status = Running | Failed | Outside

  /** Does the cursor computed by the specification say what the loop reports? */
  ghost predicate Reports(c: Cursor, st: Status, pos: nat, out: seq<byte>) {
    match st
    case Running => c == At(pos, out)
    case Failed => c == Overflow
    case Outside => c == OutOfBounds
  }

  /** A copy is determined by its period: each new byte repeats the one `dist` places back. */
  lemma {:induction false} CopyBackUnique(out: seq<byte>, dist: nat, len: nat, s: seq<byte>)
    requires 1 <= dist <= |out| && |s| == |out| + len && s[..|out|] == out
    requires forall j | |out| <= j < |s| :: s[j] == s[j - dist]
    ensures s == CopyBack(out, dist, len)
    decreases len
  {
    if len == 0 {
      assert s == s[..|out|];
    } else {
      var b := out[|out| - dist];
      assert s[|out|] == s[|out| - dist] == s[..|out|][|out| - dist] == b;
      assert s[..|out| + 1] == s[..|out|] + [s[|out|]];
      CopyBackUnique(out + [b], dist, len - 1, s);
    }
  }

  /** The non-overlapping part at once, then byte by byte. */
  method CopyPhrase(dest: array<byte>, d: nat, dist: nat, len: nat)
    requires 1 <= dist <= d && d + len <= dest.Length
    modifies dest
    ensures dest[..d + len] == CopyBack(old(dest[..d]), dist, len)
  {
    var n := if len <= dist then len else dist;
    forall k | 0 <= k < n {
      dest[d + k] := dest[d - dist + k];
    }
    assert forall j | d <= j < d + n :: dest[j] == dest[j - dist] by {
      forall j | d <= j < d + n
        ensures dest[j] == dest[j - dist]
      {
        assert dest[d + (j - d)] == old(dest[d - dist + (j - d)]);
      }
    }
    var m := n;
    while m < len
      invariant n <= m <= len
      invariant dest[..d] == old(dest[..d])
      invariant forall j | d <= j < d + m :: dest[j] == dest[j - dist]
    {
      dest[d + m] := dest[d + m - dist];
      m := m + 1;
    }
    ghost var out, s := old(dest[..d]), dest[..d + len];
    assert s[..|out|] == dest[..d];
    forall j | |out| <= j < |s|
      ensures s[j] == s[j - dist]
    {
      assert s[j] == dest[j] && s[j - dist] == dest[j - dist];
    }
    CopyBackUnique(out, dist, len, s);
  }

  /** log2 by shifting. */
  method ShiftCount(i0: nat) returns (lg: nat)
    ensures lg == Lg(i0)
  {
    var i := i0;
    lg := 0;
    while i >= 0x10
      invariant Lg(i0) == lg + Lg(i)
    {
      lg := lg + 1;
      i := i / 2;
    }
  }

  /** Distance and length of a phrase word, with `p` bytes of the sub-block out. */
  method SplitPhrase(pt: nat, p: nat) returns (dist: nat, len: nat)
    requires 1 <= p <= SB_SIZE
    ensures (dist, len) == SplitWord(pt, p)
  {
    LgRange(p - 1);
    var lg := ShiftCount(p - 1);
    var w := Pow2(12 - lg);
    dist, len := pt / w + 1, pt % w + 3;
  }

  /** One phrase token at `pos`. */
  method PhraseInto(dest: array<byte>, cb: seq<byte>, pos: nat, start: nat, d: nat)
    returns (ok: bool, d': nat)
    requires pos + 1 < |cb| && start < d <= start + SB_SIZE <= dest.Length
    modifies dest
    ensures var (dist, len) := SplitWord(Le16(cb, pos), d - start);
            ok == (dist <= d - start && d + len <= start + SB_SIZE)
            && (ok ==> d' == d + len && dest[..d'] == CopyBack(old(dest[..d]), dist, len))
    ensures if ok then d <= d' <= start + SB_SIZE else d' == d
  {
    hide SplitWord, CopyBack, Le16;
    var dist, len := SplitPhrase(Le16(cb, pos), d - start);
    ok, d' := false, d;
    if dist <= d - start && d + len <= start + SB_SIZE {
      CopyPhrase(dest, d, dist, len);
      ok, d' := true, d + len;
    }
  }

  /** The eight tokens of one tag. */
  method TokensInto(dest: array<byte>, cb: seq<byte>, tag0: byte, pos0: nat, sbEnd: nat, start: nat, d0: nat)
    returns (st: Status, pos: nat, d: nat)
    requires sbEnd <= |cb| && start <= d0 <= start + SB_SIZE <= dest.Length
    modifies dest
    ensures d0 <= d <= dest.Length
    ensures Reports(ReadTokens(tag0, 8, cb, pos0, sbEnd, old(dest[..d0]), start, dest.Length), st, pos, dest[..d])
  {
    hide SplitWord, CopyBack, ReadTokens, Le16;
    var tag, k := tag0, 8;
    st, pos, d := Running, pos0, d0;
    ghost var want := ReadTokens(tag0, 8, cb, pos0, sbEnd, dest[..d0], start, dest.Length);
    while k > 0 && pos < sbEnd && d <= start + SB_SIZE
      invariant d0 <= d <= dest.Length && st == Running && 0 <= k <= 8
      invariant want == ReadTokens(tag, k, cb, pos, sbEnd, dest[..d], start, dest.Length)
      decreases k
    {
      ghost var was := dest[..d];
      if tag % 2 == 0 {
        LiteralToken(tag, k, cb, pos, sbEnd, was, start, dest.Length);
        if d >= dest.Length {
          return Outside, pos, d;
        }
        dest[d] := cb[pos];
        assert dest[..d + 1] == was + [cb[pos]];
        pos, d := pos + 1, d + 1;
      } else {
        PhraseToken(tag, k, cb, pos, sbEnd, was, start, dest.Length);
        if d == start {
          return Failed, pos, d;
        }
        if pos + 1 >= |cb| {
          return Outside, pos, d;
        }
        var ok;
        ok, d := PhraseInto(dest, cb, pos, start, d);
        if !ok {
          return Failed, pos, d;
        }
        pos := pos + 2;
      }
      tag, k := tag / 2, k - 1;
    }
    NoMoreTokens(tag, k, cb, pos, sbEnd, dest[..d], start, dest.Length);
  }

  // One step of the specification, token by token.

  lemma NoMoreTokens(tag: nat, k: nat, cb: seq<byte>, pos: nat, sbEnd: nat, out: seq<byte>, start: nat, destEnd: nat)
    requires sbEnd <= |cb| && start <= |out| && (k == 0 || pos >= sbEnd || |out| > start + SB_SIZE)
    ensures ReadTokens(tag, k, cb, pos, sbEnd, out, start, destEnd) == At(pos, out)
  {
  }

  lemma LiteralToken(tag: nat, k: nat, cb: seq<byte>, pos: nat, sbEnd: nat, out: seq<byte>, start: nat, destEnd: nat)
    requires sbEnd <= |cb| && start <= |out| <= start + SB_SIZE && k > 0 && pos < sbEnd && tag % 2 == 0
    ensures ReadTokens(tag, k, cb, pos, sbEnd, out, start, destEnd)
            == if |out| >= destEnd then OutOfBounds
               else ReadTokens(tag / 2, k - 1, cb, pos + 1, sbEnd, out + [cb[pos]], start, destEnd)
  {
  }

  lemma PhraseToken(tag: nat, k: nat, cb: seq<byte>, pos: nat, sbEnd: nat, out: seq<byte>, start: nat, destEnd: nat)
    requires sbEnd <= |cb| && start <= |out| <= start + SB_SIZE && k > 0 && pos < sbEnd && tag % 2 == 1
    ensures var c := ReadTokens(tag, k, cb, pos, sbEnd, out, start, destEnd);
            if |out| == start then c == Overflow
            else if pos + 1 >= |cb| then c == OutOfBounds
            else
              var (dist, len) := SplitWord(Le16(cb, pos), |out| - start);
              if dist > |out| - start || |out| + len > start + SB_SIZE then c == Overflow
              else c == ReadTokens(tag / 2, k - 1, cb, pos + 2, sbEnd, CopyBack(out, dist, len), start, destEnd)
  {
    hide SplitWord, CopyBack, Le16;
  }

  /** The tags of one compressed sub-block, and its zero fill. */
  method TagsInto(dest: array<byte>, cb: seq<byte>, pos0: nat, sbEnd: nat, start: nat) returns (st: Status, d: nat)
    requires pos0 <= sbEnd <= |cb| && start + SB_SIZE <= dest.Length
    modifies dest
    ensures start <= d <= dest.Length
    ensures Reports(ReadTags(cb, pos0, sbEnd, old(dest[..start]), start, dest.Length), st, sbEnd, dest[..d])
  {
    hide ReadTokens;
    var pos := pos0;
    st, d := Running, start;
    ghost var want := ReadTags(cb, pos0, sbEnd, dest[..start], start, dest.Length);
    while pos != sbEnd
      invariant start <= d <= dest.Length
      invariant want == ReadTags(cb, pos, sbEnd, dest[..d], start, dest.Length)
      decreases |cb| - pos
    {
      if pos > sbEnd || d > start + SB_SIZE {
        return Failed, d;
      }
      st, pos, d := TokensInto(dest, cb, cb[pos], pos + 1, sbEnd, start, d);
      if st != Running {
        return st, d;
      }
    }
    st := Running;
    if d < start + SB_SIZE {
      ghost var was := dest[..d];
      ZeroFill(dest, d, start + SB_SIZE);
      assert dest[..start + SB_SIZE] == was + Zeros(start + SB_SIZE - d);
      d := start + SB_SIZE;
    }
  }

  method ZeroFill(dest: array<byte>, d: nat, end: nat)
    requires d <= end <= dest.Length
    modifies dest
    ensures dest[..end] == old(dest[..d]) + Zeros(end - d)
  {
    forall k | d <= k < end {
      dest[k] := 0;
    }
  }

  /** One sub-block. */
  method SubBlockInto(dest: array<byte>, cb: seq<byte>, pos: nat, d0: nat) returns (st: Status, pos': nat, d: nat)
    requires pos + 1 < |cb| && d0 <= dest.Length
    modifies dest
    ensures d0 <= d <= dest.Length && (st == Running ==> pos < pos' <= |cb|)
    ensures Reports(ReadSubBlock(cb, pos, old(dest[..d0]), dest.Length), st, pos', dest[..d])
  {
    hide ReadTags;
    pos', d := pos, d0;
    if d0 + SB_SIZE > dest.Length || pos + 6 > |cb| {
      return Failed, pos', d;
    }
    var head := Le16(cb, pos);
    var sbEnd := pos + head % 0x1000 + 3;
    if sbEnd > |cb| {
      return Failed, pos', d;
    }
    if head < 0x8000 {
      if sbEnd - (pos + 2) != SB_SIZE {
        return Failed, pos', d;
      }
      CopyStored(dest, d0, cb[pos + 2..sbEnd]);
      return Running, sbEnd, d0 + SB_SIZE;
    }
    st, d := TagsInto(dest, cb, pos + 2, sbEnd, d0);
    pos' := sbEnd;
  }

  method CopyStored(dest: array<byte>, d: nat, data: seq<byte>)
    requires d + |data| <= dest.Length
    modifies dest
    ensures dest[..d + |data|] == old(dest[..d]) + data
  {
    forall k | 0 <= k < |data| {
      dest[d + k] := data[k];
    }
  }

  /** ntfs_decompress, in place: the same outcome as Decompress, and the data in `dest`. */
  method DecompressInto(dest: array<byte>, cb: seq<byte>) returns (st: Status)
    modifies dest
    ensures match Decompress(cb, dest.Length)
            case Decoded(data) => st == Running && dest[..] == data
            case Eoverflow => st == Failed
            case Undefined => st == Outside
  {
    hide ReadSubBlock;
    var pos, d := 0, 0;
    ghost var want := Decompress(cb, dest.Length);
    assert dest[..0] == [];
    while true
      invariant 0 <= pos <= |cb| && 0 <= d <= dest.Length
      invariant want == ReadFrom(cb, pos, dest[..d], dest.Length)
      decreases |cb| - pos
    {
      if pos != |cb| && pos + 1 == |cb| {
        return Outside;
      }
      if pos == |cb| || Le16(cb, pos) == 0 || d == dest.Length {
        ZeroFill(dest, d, dest.Length);
        assert dest[..] == dest[..dest.Length];
        return Running;
      }
      st, pos, d := SubBlockInto(dest, cb, pos, d);
      if st != Running {
        return;
      }
    }
  }
}
