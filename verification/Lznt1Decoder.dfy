/**
 ntfs_decompress as a function of the bytes: the byte-level reader of a compression block,
 with its own way to find the bit split.  Lznt1InPlace has the loops over `dest`.

 C reads and writes through raw pointers.  An access beyond a buffer is the explicit outcome
 OutOfBounds here, so a theorem whose outcome is Decoded also says that no such access occurs.
 */
module Lznt1Decoder {
  import opened Bytes
  import opened Lznt1Format

  /** `At` is a reader position: `pos` bytes of the block consumed, `out` written so far. */
  datatype Cursor = At(pos: nat, out: seq<byte>) | Overflow | OutOfBounds

  datatype Outcome = Decoded(data: seq<byte>) | Eoverflow | Undefined

  /** The shift loop of the decoder: how often `i` is halved before it drops below 16. */
  function Lg(i: nat): nat {
    if i < 16 then 0 else 1 + Lg(i / 2)
  }

  /** The decoder's shift count and the encoder's doubling loop agree on every position. */
  lemma {:induction false} BitSplitsAgree(p: nat)
    requires p >= 1
    ensures OffsetBits(p) == 4 + Lg(p - 1)
  {
    LgBounds(p - 1);
    OffsetBitsUnique(p, 4 + Lg(p - 1));
  }

  lemma {:induction false} LgBounds(i: nat)
    ensures i < Pow2(4 + Lg(i))
    ensures Lg(i) == 0 || Pow2(3 + Lg(i)) <= i
  {
    Pow2Values();
    if i >= 16 {
      LgBounds(i / 2);
      assert Pow2(4 + Lg(i)) == 2 * Pow2(4 + Lg(i / 2));
    }
  }

  lemma LgRange(i: nat)
    requires i < SB_SIZE
    ensures Lg(i) <= 8
  {
    BitSplitsAgree(i + 1);
    OffsetBitsRange(i + 1);
  }

  // ----- the reader as a function

  /** Distance and length in a phrase word met when `p` bytes of the sub-block are out. */
  function SplitWord(pt: nat, p: nat): (r: (nat, nat))
    requires 1 <= p <= SB_SIZE
    ensures r.0 >= 1 && r.1 >= 3
  {
    LgRange(p - 1);
    SplitBy(pt, Pow2(12 - Lg(p - 1)))
  }

  function SplitBy(pt: nat, d: nat): (r: (nat, nat))
    requires d > 0
    ensures r.0 >= 1 && r.1 >= 3
  {
    (pt / d + 1, pt % d + 3)
  }

  /** At most `k` more tokens of one tag; the sub-block started at `start` and ends at `sbEnd`. */
  function ReadTokens(tag: nat, k: nat, cb: seq<byte>, pos: nat, sbEnd: nat,
                      out: seq<byte>, start: nat, destEnd: nat): (r: Cursor)
    requires sbEnd <= |cb| && start <= |out|
    ensures r.At? ==> r.pos >= pos && |r.out| >= |out|
    decreases k
  {
    if k == 0 || pos >= sbEnd || |out| > start + SB_SIZE then At(pos, out)
    else if tag % 2 == 0 then
      if |out| >= destEnd then OutOfBounds
      else ReadTokens(tag / 2, k - 1, cb, pos + 1, sbEnd, out + [cb[pos]], start, destEnd)
    else if |out| == start then Overflow
    else if pos + 1 >= |cb| then OutOfBounds
    else
      var (dist, len) := SplitWord(Le16(cb, pos), |out| - start);
      if dist > |out| - start || |out| + len > start + SB_SIZE then Overflow
      else ReadTokens(tag / 2, k - 1, cb, pos + 2, sbEnd, CopyBack(out, dist, len), start, destEnd)
  }

  /** The tags of one compressed sub-block, and the zero fill of a short one. */
  function ReadTags(cb: seq<byte>, pos: nat, sbEnd: nat,
                    out: seq<byte>, start: nat, destEnd: nat): (r: Cursor)
    requires sbEnd <= |cb| && start <= |out|
    ensures r.At? ==> r.pos == sbEnd && pos <= sbEnd
    decreases |cb| - pos
  {
    if pos == sbEnd then
      At(pos, if |out| < start + SB_SIZE then out + Zeros(start + SB_SIZE - |out|) else out)
    else if pos > sbEnd || |out| > start + SB_SIZE then Overflow
    else
      var c := ReadTokens(cb[pos], 8, cb, pos + 1, sbEnd, out, start, destEnd);
      if c.At? then ReadTags(cb, c.pos, sbEnd, c.out, start, destEnd) else c
  }

  /** One sub-block at `pos`, whose header has been seen to be non-null. */
  function ReadSubBlock(cb: seq<byte>, pos: nat, out: seq<byte>, destEnd: nat): (r: Cursor)
    requires pos + 1 < |cb|
    ensures r.At? ==> pos < r.pos <= |cb|
  {
    if |out| + SB_SIZE > destEnd || pos + 6 > |cb| then Overflow
    else
      var head := Le16(cb, pos);
      var sbEnd := pos + head % 0x1000 + 3;
      if sbEnd > |cb| then Overflow
      else if head < 0x8000 then
        if sbEnd - (pos + 2) != SB_SIZE then Overflow
        else At(sbEnd, out + cb[pos + 2..sbEnd])
      else ReadTags(cb, pos + 2, sbEnd, out, |out|, destEnd)
  }

  function ReadFrom(cb: seq<byte>, pos: nat, out: seq<byte>, destEnd: nat): (r: Outcome)
    requires pos <= |cb|
    decreases |cb| - pos
  {
    if pos == |cb| then ZeroFilled(out, destEnd)
    else if pos + 1 == |cb| then Undefined
    else if Le16(cb, pos) == 0 || |out| == destEnd then ZeroFilled(out, destEnd)
    else
      match ReadSubBlock(cb, pos, out, destEnd)
      case Overflow => Eoverflow
      case OutOfBounds => Undefined
      case At(next, out') => ReadFrom(cb, next, out', destEnd)
  }

  function ZeroFilled(out: seq<byte>, destEnd: nat): Outcome {
    Decoded(if |out| < destEnd then out + Zeros(destEnd - |out|) else out)
  }

  function Decompress(cb: seq<byte>, destSize: nat): Outcome {
    ReadFrom(cb, 0, [], destSize)
  }

  // ----- reading back what Serialize wrote

  /** The word of a phrase token, taken apart with the decoder's own bit split. */
  lemma PhraseWordReadsBack(t: Token, p: nat)
    requires t.Phrase? && ValidToken(t, p)
    ensures SplitWord(PhraseWord(t, p), p) == (t.dist, t.len)
  {
    hide OffsetBits, Lg;
    BitSplitsAgree(p);
    Unpack(t.dist - 1, t.len - 3, Pow2(16 - OffsetBits(p)));
  }

  lemma WordOfBytes(w: nat)
    requires w < 0x10000
    ensures 0 <= w / 256 < 256 && w % 256 + 256 * (w / 256) == w
  {
  }

  /** One token: the reader at a token written by TokenBytes takes exactly that token. */
  lemma ReadOneToken(t: Token, tag: nat, k: nat, cb: seq<byte>, pos: nat, sbEnd: nat,
                     out: seq<byte>, start: nat, destEnd: nat)
    requires k > 0 && start <= |out| && ValidToken(t, |out| - start)
    requires start + SB_SIZE <= destEnd
    requires tag % 2 == if t.Phrase? then 1 else 0
    requires pos + |TokenBytes(t, |out| - start)| <= sbEnd <= |cb|
    requires cb[pos..pos + |TokenBytes(t, |out| - start)|] == TokenBytes(t, |out| - start)
    ensures ReadTokens(tag, k, cb, pos, sbEnd, out, start, destEnd)
         == ReadTokens(tag / 2, k - 1, cb, pos + |TokenBytes(t, |out| - start)|, sbEnd, Apply(out, t), start, destEnd)
  {
    hide PhraseWord, SplitWord, CopyBack;
    var tb := TokenBytes(t, |out| - start);
    assert cb[pos] == cb[pos..pos + |tb|][0] == tb[0];
    if t.Phrase? {
      assert cb[pos + 1] == cb[pos..pos + |tb|][1] == tb[1];
      WordOfBytes(PhraseWord(t, |out| - start));
      PhraseWordReadsBack(t, |out| - start);
    }
  }

  /** A whole group of tokens is read back, whether it fills its tag or ends the sub-block. */
  lemma {:induction false} ReadGroup(g: seq<Token>, k: nat, cb: seq<byte>, pos: nat, sbEnd: nat,
                                     out: seq<byte>, start: nat, destEnd: nat)
    requires start <= |out| && ValidTokens(g, |out| - start) && start + SB_SIZE <= destEnd
    requires |g| <= k
    requires pos + |BytesOf(g, |out| - start)| <= sbEnd <= |cb|
    requires |g| == k || pos + |BytesOf(g, |out| - start)| == sbEnd
    requires cb[pos..pos + |BytesOf(g, |out| - start)|] == BytesOf(g, |out| - start)
    ensures ReadTokens(TagOf(g), k, cb, pos, sbEnd, out, start, destEnd)
         == At(pos + |BytesOf(g, |out| - start)|, ExpandFrom(out, g, start))
    decreases |g|
  {
    hide *;
    if g == [] {
      NoTokens(out, start);
      ReadNothing(TagOf(g), k, cb, pos, sbEnd, out, start, destEnd);
    } else {
      var p := |out| - start;
      var t, rest := g[0], g[1..];
      FirstToken(g, out, start);
      var tb, rb := TokenBytes(t, p), BytesOf(rest, p + Width(t));
      SliceTwo(cb, pos, tb, rb);
      ReadOneToken(t, TagOf(g), k, cb, pos, sbEnd, out, start, destEnd);
      ReadGroup(rest, k - 1, cb, pos + |tb|, sbEnd, Apply(out, t), start, destEnd);
    }
  }

  lemma NoTokens(out: seq<byte>, start: nat)
    requires start <= |out|
    ensures ValidTokens([], |out| - start) && BytesOf([], |out| - start) == [] && ExpandFrom(out, [], start) == out
  {
  }

  /** Unfolding of a group along its first token. */
  lemma FirstToken(g: seq<Token>, out: seq<byte>, start: nat)
    requires g != [] && start <= |out| && ValidTokens(g, |out| - start)
    ensures var p, t, rest := |out| - start, g[0], g[1..];
            && ValidToken(t, p) && ValidTokens(rest, p + Width(t))
            && BytesOf(g, p) == TokenBytes(t, p) + BytesOf(rest, p + Width(t))
            && (t.Phrase? ==> 1 <= t.dist <= |out|) && |Apply(out, t)| == |out| + Width(t)
            && ExpandFrom(out, g, start) == ExpandFrom(Apply(out, t), rest, start)
            && TagOf(g) % 2 == (if t.Phrase? then 1 else 0) && TagOf(g) / 2 == TagOf(rest)
  {
    hide OffsetBits, TokenBytes, CopyBack;
  }

  lemma SliceTwo(cb: seq<byte>, pos: nat, a: seq<byte>, b: seq<byte>)
    requires pos + |a + b| <= |cb| && cb[pos..pos + |a + b|] == a + b
    ensures cb[pos..pos + |a|] == a && cb[pos + |a|..pos + |a| + |b|] == b
  {
    var n := |a| + |b|;
    SubSlice(cb, pos, pos + n, 0, |a|);
    SubSlice(cb, pos, pos + n, |a|, n);
    assert (a + b)[0..|a|] == a && (a + b)[|a|..n] == b;
  }

  lemma ReadNothing(tag: nat, k: nat, cb: seq<byte>, pos: nat, sbEnd: nat,
                    out: seq<byte>, start: nat, destEnd: nat)
    requires sbEnd <= |cb| && start <= |out| && (k == 0 || pos >= sbEnd)
    ensures ReadTokens(tag, k, cb, pos, sbEnd, out, start, destEnd) == At(pos, out)
  {
  }

  /** Where a flat output buffer is concerned, only the bytes of the current sub-block matter. */
  lemma {:induction false} CopyBackShift(pre: seq<byte>, out: seq<byte>, dist: nat, len: nat)
    requires 1 <= dist <= |out|
    ensures CopyBack(pre + out, dist, len) == pre + CopyBack(out, dist, len)
    decreases len
  {
    if len != 0 {
      var b := out[|out| - dist];
      assert (pre + out) + [b] == pre + (out + [b]);
      CopyBackShift(pre, out + [b], dist, len - 1);
    }
  }

  lemma {:induction false} ExpandShift(pre: seq<byte>, out: seq<byte>, toks: seq<Token>)
    requires ValidTokens(toks, |out|)
    ensures ExpandFrom(pre + out, toks, |pre|) == pre + ExpandFrom(out, toks)
    decreases |toks|
  {
    if toks != [] {
      var t := toks[0];
      assert Apply(pre + out, t) == pre + Apply(out, t) by {
        if t.Phrase? { CopyBackShift(pre, out, t.dist, t.len); }
      }
      ExpandShift(pre, Apply(out, t), toks[1..]);
    }
  }

  /** The tags of a sub-block written by Serialize give back the tokens' meaning. */
  lemma {:induction false} ReadSerialized(toks: seq<Token>, cb: seq<byte>, pos: nat, sbEnd: nat,
                                          out: seq<byte>, start: nat, destEnd: nat)
    requires start <= |out| && ValidTokens(toks, |out| - start) && start + SB_SIZE <= destEnd
    requires |out| <= start + SB_SIZE
    requires pos + |Serialize(toks, |out| - start)| == sbEnd <= |cb|
    requires cb[pos..sbEnd] == Serialize(toks, |out| - start)
    ensures |ExpandFrom(out, toks, start)| <= start + SB_SIZE
    ensures ReadTags(cb, pos, sbEnd, out, start, destEnd)
         == At(sbEnd, ExpandFrom(out, toks, start) + Zeros(start + SB_SIZE - |ExpandFrom(out, toks, start)|))
    decreases |toks|
  {
    hide *;
    var p := |out| - start;
    if toks == [] {
      NoTokens(out, start);
      EmptyForms(p);
      TagsEnd(cb, pos, out, start, destEnd);
    } else {
      var g := Group(toks);
      GroupFacts(toks);
      var rest := toks[|g|..];
      ExpandAppendAt(out, g, rest, start);
      SerializeStep(g, rest, p);
      SpanFits(g, p);
      var bs, tail := BytesOf(g, p), Serialize(rest, p + Span(g));
      SliceParts(cb, pos, TagOf(g), bs, tail);
      if rest == [] { EmptyForms(p + Span(g)); }
      ReadGroup(g, 8, cb, pos + 1, sbEnd, out, start, destEnd);
      TagsStep(cb, pos, sbEnd, out, start, destEnd);
      ReadSerialized(rest, cb, pos + 1 + |bs|, sbEnd, ExpandFrom(out, g, start), start, destEnd);
    }
  }

  lemma TagsEnd(cb: seq<byte>, pos: nat, out: seq<byte>, start: nat, destEnd: nat)
    requires pos <= |cb| && start <= |out| <= start + SB_SIZE
    ensures ReadTags(cb, pos, pos, out, start, destEnd) == At(pos, out + Zeros(start + SB_SIZE - |out|))
  {
    assert out + Zeros(0) == out;
  }

  lemma TagsStep(cb: seq<byte>, pos: nat, sbEnd: nat, out: seq<byte>, start: nat, destEnd: nat)
    requires pos < sbEnd <= |cb| && start <= |out| <= start + SB_SIZE
    ensures var c := ReadTokens(cb[pos], 8, cb, pos + 1, sbEnd, out, start, destEnd);
            c.At? ==> ReadTags(cb, pos, sbEnd, out, start, destEnd) == ReadTags(cb, c.pos, sbEnd, c.out, start, destEnd)
  {
    hide ReadTokens;
  }

  lemma GroupFacts(toks: seq<Token>)
    requires toks != []
    ensures var g := Group(toks);
            toks == g + toks[|g|..] && (|g| == 8 || (0 < |g| < 8 && toks[|g|..] == []))
  {
  }

  lemma SliceParts(cb: seq<byte>, pos: nat, x: byte, b: seq<byte>, c: seq<byte>)
    requires pos + 1 + |b| + |c| <= |cb|
    requires cb[pos..pos + 1 + |b| + |c|] == [x] + b + c
    ensures cb[pos] == x
    ensures cb[pos + 1..pos + 1 + |b|] == b
    ensures cb[pos + 1 + |b|..pos + 1 + |b| + |c|] == c
  {
    var n := pos + 1 + |b| + |c|;
    assert cb[pos] == cb[pos..n][0];
    SubSlice(cb, pos, n, 1, 1 + |b|);
    SubSlice(cb, pos, n, 1 + |b|, 1 + |b| + |c|);
    assert ([x] + b + c)[1..1 + |b|] == b;
    assert ([x] + b + c)[1 + |b|..] == c;
  }

  lemma SubSlice(s: seq<byte>, i: nat, j: nat, a: nat, b: nat)
    requires i <= j <= |s| && a <= b <= j - i
    ensures s[i..j][a..b] == s[i + a..i + b]
  {
    var x, y := s[i..j][a..b], s[i + a..i + b];
    assert |x| == |y|;
    forall k | 0 <= k < |x|
      ensures x[k] == y[k]
    {
      assert x[k] == s[i..j][a + k];
    }
  }

  lemma {:induction false} SpanFits(toks: seq<Token>, p: nat)
    requires ValidTokens(toks, p) && p <= SB_SIZE
    ensures p + Span(toks) <= SB_SIZE
    decreases |toks|
  {
    if toks != [] { SpanFits(toks[1..], p + Width(toks[0])); }
  }
}
