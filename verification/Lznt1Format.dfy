/**
 The LZNT1 sub-block format of [MS-XCA] section 2.5: a stream of literal and phrase tokens,
 grouped eight to a tag byte, where the split of a phrase word between distance and length
 depends on how much of the sub-block is already out.

 Tokens, their meaning (ExpandFrom) and their byte form (Serialize) are stated here
 independently of the encoder and of the decoder.
 */
module Lznt1Format {
  import opened Bytes

  const SB_SIZE: nat := 4096
  const NICE_MATCH_LEN: nat := 18

  datatype Token = Literal(b: byte) | Phrase(dist: nat, len: nat)

  function Width(t: Token): nat {
    if t.Literal? then 1 else t.len
  }

  function Span(toks: seq<Token>): nat {
    if toks == [] then 0 else Width(toks[0]) + Span(toks[1..])
  }

  /** Bits given to the distance once `p` bytes are out: the least b >= 4 with 2^b >= p. */
  function OffsetBits(p: nat): (b: nat)
    ensures 4 <= b && p <= Pow2(b)
    ensures b == 4 || Pow2(b - 1) < p
  {
    OffsetBitsFrom(p, 4)
  }

  function OffsetBitsFrom(p: nat, b: nat): (r: nat)
    requires 4 <= b && (b == 4 || Pow2(b - 1) < p)
    ensures b <= r && p <= Pow2(r) && (r == 4 || Pow2(r - 1) < p)
    decreases p - Pow2(b)
  {
    if p <= Pow2(b) then b else OffsetBitsFrom(p, b + 1)
  }

  lemma OffsetBitsUnique(p: nat, b: nat)
    requires 4 <= b && p <= Pow2(b) && (b == 4 || Pow2(b - 1) < p)
    ensures OffsetBits(p) == b
  {
    var c := OffsetBits(p);
    if b < c {
      Pow2Monotone(b, c - 1);
    } else if c < b {
      Pow2Monotone(c, b - 1);
    }
  }

  lemma Pow2Values()
    ensures Pow2(4) == 16 && Pow2(5) == 32 && Pow2(6) == 64 && Pow2(7) == 128 && Pow2(8) == 256
    ensures Pow2(9) == 512 && Pow2(10) == 1024 && Pow2(11) == 2048 && Pow2(12) == 4096
    ensures Pow2(16) == 65536
  {
    assert Pow2(0) == 1 && Pow2(1) == 2 && Pow2(2) == 4 && Pow2(3) == 8;
    assert Pow2(4) == 16;
    assert Pow2(5) == 32;
    assert Pow2(6) == 64 && Pow2(7) == 128 && Pow2(8) == 256;
    assert Pow2(9) == 512 && Pow2(10) == 1024;
    assert Pow2(11) == 2048 && Pow2(12) == 4096;
    assert Pow2(13) == 8192 && Pow2(14) == 16384 && Pow2(15) == 32768;
  }

  lemma OffsetBitsRange(p: nat)
    requires p <= SB_SIZE
    ensures OffsetBits(p) <= 12
  {
    Pow2Values();
    var b := OffsetBits(p);
    if b > 12 { Pow2Monotone(12, b - 1); }
  }

  /** May `t` be emitted once `p` bytes of the sub-block are out? */
  predicate ValidToken(t: Token, p: nat) {
    && p + Width(t) <= SB_SIZE
    && (t.Phrase? ==> && 1 <= t.dist <= p
                      && OffsetBits(p) <= 12
                      && 3 <= t.len <= Pow2(16 - OffsetBits(p)) + 2)
  }

  predicate ValidTokens(toks: seq<Token>, p: nat) {
    toks == [] || (ValidToken(toks[0], p) && ValidTokens(toks[1..], p + Width(toks[0])))
  }

  // ----- meaning

  /** Append `len` bytes, each a copy of the byte `dist` places back (so runs may overlap). */
  function CopyBack(out: seq<byte>, dist: nat, len: nat): (r: seq<byte>)
    requires 1 <= dist <= |out|
    ensures |r| == |out| + len && out <= r
    decreases len
  {
    if len == 0 then out else CopyBack(out + [out[|out| - dist]], dist, len - 1)
  }

  function Apply(out: seq<byte>, t: Token): (r: seq<byte>)
    requires t.Phrase? ==> 1 <= t.dist <= |out|
    ensures |r| == |out| + Width(t) && out <= r
  {
    if t.Literal? then out + [t.b] else CopyBack(out, t.dist, t.len)
  }

  function ExpandFrom(out: seq<byte>, toks: seq<Token>, ghost start: nat := 0): (r: seq<byte>)
    requires start <= |out| && ValidTokens(toks, |out| - start)
    ensures |r| == |out| + Span(toks) && out <= r
    decreases |toks|
  {
    if toks == [] then out
    else ExpandFrom(Apply(out, toks[0]), toks[1..], start)
  }

  // ----- byte form

  function PhraseWord(t: Token, p: nat): (w: nat)
    requires t.Phrase? && ValidToken(t, p)
    ensures w < 0x10000
  {
    var d := Pow2(16 - OffsetBits(p));
    PhraseWordFits(t, p);
    (t.dist - 1) * d + (t.len - 3)
  }

  lemma PhraseWordFits(t: Token, p: nat)
    requires t.Phrase? && ValidToken(t, p)
    ensures 0 <= (t.dist - 1) * Pow2(16 - OffsetBits(p)) + (t.len - 3) < 0x10000
  {
    var b := OffsetBits(p);
    Pow2Add(b, 16 - b);
    Pow2Values();
    PackFits(t.dist - 1, t.len - 3, Pow2(b), Pow2(16 - b));
  }

  lemma PackFits(high: nat, low: nat, n: nat, d: nat)
    requires high < n && low < d
    ensures 0 <= high * d + low < n * d
  {
    assert high * d <= (n - 1) * d;
  }

  function TokenBytes(t: Token, p: nat): (r: seq<byte>)
    requires ValidToken(t, p)
    ensures |r| == if t.Literal? then 1 else 2
  {
    if t.Literal? then [t.b]
    else
      var w := PhraseWord(t, p);
      [w % 256, w / 256]
  }

  function BytesOf(toks: seq<Token>, p: nat): (r: seq<byte>)
    requires ValidTokens(toks, p)
    ensures |toks| <= |r| <= 2 * |toks|
  {
    if toks == [] then []
    else TokenBytes(toks[0], p) + BytesOf(toks[1..], p + Width(toks[0]))
  }

  /** Bit k of the tag is set when token k of the group is a phrase. */
  function TagOf(toks: seq<Token>): (r: nat)
    ensures r < Pow2(|toks|)
  {
    if toks == [] then 0
    else (if toks[0].Phrase? then 1 else 0) + 2 * TagOf(toks[1..])
  }

  lemma TagIsByte(toks: seq<Token>)
    requires |toks| <= 8
    ensures TagOf(toks) < 256
  {
    Pow2Monotone(|toks|, 8);
    Pow2Values();
  }

  function Group(toks: seq<Token>): (g: seq<Token>)
    ensures |g| <= 8 && g <= toks && (toks != [] ==> g != [])
  {
    if |toks| <= 8 then toks else toks[..8]
  }

  function Serialize(toks: seq<Token>, p: nat): (r: seq<byte>)
    requires ValidTokens(toks, p)
    decreases |toks|
  {
    if toks == [] then []
    else
      var g := Group(toks);
      ValidSplit(g, toks[|g|..], p);
      assert g + toks[|g|..] == toks;
      TagIsByte(g);
      [TagOf(g)] + BytesOf(g, p) + Serialize(toks[|g|..], p + Span(g))
  }

  // ----- concatenation laws

  lemma {:induction false} SpanAppend(a: seq<Token>, b: seq<Token>)
    ensures Span(a + b) == Span(a) + Span(b)
  {
    if a == [] {
      assert a + b == b;
    } else {
      assert (a + b)[1..] == a[1..] + b;
      SpanAppend(a[1..], b);
    }
  }

  lemma {:induction false} ValidSplit(a: seq<Token>, b: seq<Token>, p: nat)
    ensures ValidTokens(a + b, p) <==> ValidTokens(a, p) && ValidTokens(b, p + Span(a))
    decreases |a|
  {
    if a == [] {
      assert a + b == b;
    } else {
      assert (a + b)[1..] == a[1..] + b;
      ValidSplit(a[1..], b, p + Width(a[0]));
    }
  }

  lemma {:induction false} ExpandAppendAt(out: seq<byte>, a: seq<Token>, b: seq<Token>, start: nat)
    requires start <= |out| && ValidTokens(a + b, |out| - start)
    ensures ValidTokens(a, |out| - start) && ValidTokens(b, |out| + Span(a) - start)
    ensures ExpandFrom(out, a + b, start) == ExpandFrom(ExpandFrom(out, a, start), b, start)
    decreases |a|
  {
    hide OffsetBits, CopyBack;
    ValidSplit(a, b, |out| - start);
    if a == [] {
      assert a + b == b;
    } else {
      assert (a + b)[1..] == a[1..] + b;
      ExpandAppendAt(Apply(out, a[0]), a[1..], b, start);
    }
  }

  lemma {:induction false} BytesAppend(a: seq<Token>, t: Token, p: nat)
    requires ValidTokens(a, p) && ValidToken(t, p + Span(a))
    ensures ValidTokens(a + [t], p)
    ensures BytesOf(a + [t], p) == BytesOf(a, p) + TokenBytes(t, p + Span(a))
    decreases |a|
  {
    hide PhraseWord, OffsetBits;
    ValidSplit(a, [t], p);
    if a == [] {
      assert a + [t] == [t];
      assert [t][1..] == [];
      assert BytesOf([t], p) == TokenBytes(t, p) + [];
    } else {
      assert (a + [t])[1..] == a[1..] + [t];
      BytesAppend(a[1..], t, p + Width(a[0]));
    }
  }

  lemma {:induction false} TagAppend(a: seq<Token>, t: Token)
    ensures TagOf(a + [t]) == TagOf(a) + (if t.Phrase? then Pow2(|a|) else 0)
  {
    if a == [] {
      assert a + [t] == [t];
      assert TagOf([t][1..]) == 0;
    } else {
      assert (a + [t])[1..] == a[1..] + [t];
      TagAppend(a[1..], t);
    }
  }

  /** Unfolding of Serialize along a known first group. */
  lemma SerializeStep(h: seq<Token>, rest: seq<Token>, p: nat)
    requires |h| == 8 || (0 < |h| < 8 && rest == [])
    requires ValidTokens(h, p) && ValidTokens(rest, p + Span(h))
    ensures ValidTokens(h + rest, p)
    ensures TagOf(h) < 256
    ensures Serialize(h + rest, p) == [TagOf(h)] + BytesOf(h, p) + Serialize(rest, p + Span(h))
  {
    hide PhraseWord, OffsetBits, TokenBytes, BytesOf, TagOf, ValidTokens, Span;
    ValidSplit(h, rest, p);
    TagIsByte(h);
    var toks := h + rest;
    assert toks[..|h|] == h && toks[|h|..] == rest;
    assert Group(toks) == h;
  }

  /** One more group after whole groups only extends the byte form. */
  lemma {:induction false} SerializeAppend(whole: seq<Token>, g: seq<Token>, p: nat)
    requires |whole| % 8 == 0 && 0 < |g| <= 8
    requires ValidTokens(whole, p) && ValidTokens(g, p + Span(whole))
    ensures ValidTokens(whole + g, p)
    ensures TagOf(g) < 256
    ensures Serialize(whole + g, p) == Serialize(whole, p) + ([TagOf(g)] + BytesOf(g, p + Span(whole)))
    decreases |whole|
  {
    hide PhraseWord, OffsetBits, TokenBytes, BytesOf, TagOf, ValidTokens, Span, Serialize;
    if whole == [] {
      assert Span(whole) == 0 && Serialize(whole, p) == [] && Serialize([], p + Span(g)) == [] && ValidTokens([], p + Span(g)) by {
        EmptyForms(p); EmptyForms(p + Span(g));
      }
      SerializeStep(g, [], p);
      assert whole + g == g && g + [] == g;
    } else {
      var h, rest := whole[..8], whole[8..];
      assert whole == h + rest;
      ValidSplit(h, rest, p);
      SpanAppend(h, rest);
      SerializeAppend(rest, g, p + Span(h));
      SerializeStep(h, rest, p);
      SerializeStep(h, rest + g, p);
      assert whole + g == h + (rest + g);
    }
  }

  lemma EmptyForms(p: nat)
    ensures Span([]) == 0 && ValidTokens([], p) && Serialize([], p) == []
  {
  }
}
