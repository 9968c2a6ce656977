/**
 The bytes that the LZNT1 encoder makes of a block, as a function of the block: the byte form
 of the lazy parse, or the stored form where that is not shorter.
 */
module Lznt1Reference {
  import opened Bytes
  import opened Lznt1Format
  import opened Lznt1LazyParse
  import opened Lznt1RoundTrip

  // ----- what the tokens stand for

  lemma {:induction false} CopyBackMatch(inbuf: seq<byte>, i: nat, dist: nat, len: nat, done: nat)
    requires IsMatch(inbuf, i, dist, len) && done <= len
    ensures CopyBack(inbuf[..i + done], dist, len - done) == inbuf[..i + len]
    decreases len - done
  {
    if done < len {
      var x := i + done;
      assert inbuf[..x][|inbuf[..x]| - dist] == inbuf[x - dist] == inbuf[x];
      assert inbuf[..x] + [inbuf[x]] == inbuf[..x + 1];
      CopyBackMatch(inbuf, i, dist, len, done + 1);
    }
  }

  /** `toks` is a valid parse of the first `i` bytes of the input. */
  ghost predicate Parses(toks: seq<Token>, inbuf: seq<byte>, i: nat) {
    && i <= |inbuf| <= SB_SIZE
    && ValidTokens(toks, 0) && Span(toks) == i
    && ExpandFrom([], toks) == inbuf[..i]
  }

  lemma ParsesStep(toks: seq<Token>, inbuf: seq<byte>, i: nat, t: Token)
    requires Parses(toks, inbuf, i) && ValidToken(t, i)
    requires i + Width(t) <= |inbuf| && Apply(inbuf[..i], t) == inbuf[..i + Width(t)]
    ensures Parses(toks + [t], inbuf, i + Width(t))
  {
    hide ValidToken, Apply;
    assert [t][1..] == [];
    assert Span([t]) == Width(t) && ValidTokens([t], i);
    ValidSplit(toks, [t], 0);
    SpanAppend(toks, [t]);
    ExpandAppendAt([], toks, [t], 0);
  }

  lemma LiteralStep(toks: seq<Token>, inbuf: seq<byte>, i: nat)
    requires Parses(toks, inbuf, i) && i < |inbuf|
    ensures ValidToken(Literal(inbuf[i]), i)
    ensures Parses(toks + [Literal(inbuf[i])], inbuf, i + 1)
  {
    var t := Literal(inbuf[i]);
    assert Apply(inbuf[..i], t) == inbuf[..i + Width(t)];
    ParsesStep(toks, inbuf, i, t);
  }

  lemma PhraseStep(toks: seq<Token>, inbuf: seq<byte>, i: nat, dist: nat, len: nat)
    requires Parses(toks, inbuf, i) && IsMatch(inbuf, i, dist, len)
    requires OffsetBits(i) <= 12 && 3 <= len <= Pow2(16 - OffsetBits(i)) + 2
    ensures ValidToken(Phrase(dist, len), i)
    ensures Parses(toks + [Phrase(dist, len)], inbuf, i + len)
  {
    hide OffsetBits, IsMatch, Parses, CopyBack, Pow2;
    var t := Phrase(dist, len);
    PhraseBounds(toks, inbuf, i, dist, len);
    CopyBackMatch(inbuf, i, dist, len, 0);
    assert inbuf[..i + 0] == inbuf[..i];
    ParsesStep(toks, inbuf, i, t);
  }

  lemma PhraseBounds(toks: seq<Token>, inbuf: seq<byte>, i: nat, dist: nat, len: nat)
    requires Parses(toks, inbuf, i) && IsMatch(inbuf, i, dist, len)
    ensures 1 <= dist <= i && i + len <= |inbuf| <= SB_SIZE
  {
    hide ValidTokens, ExpandFrom, Span;
  }

  lemma ChoiceStep(toks: seq<Token>, inbuf: seq<byte>, i: nat, ahead: Found)
    requires Parses(toks, inbuf, i) && i < |inbuf| && Within(inbuf, i, ahead) && Genuine(inbuf, i, ahead)
    ensures var c := Choose(inbuf, i, ahead);
            Parses(toks + [c.tok], inbuf, c.next) && Genuine(inbuf, c.next, c.ahead)
  {
    hide Parses, Choose, Genuine, IsMatch;
    ChoiceGenuine(inbuf, i, ahead);
    var c := Choose(inbuf, i, ahead);
    if c.tok.Literal? {
      LiteralStep(toks, inbuf, i);
    } else {
      OffsetBitsRange(i);
      PhraseStep(toks, inbuf, i, c.tok.dist, c.tok.len);
    }
  }

  lemma {:induction false} LazyParsesFrom(toks: seq<Token>, inbuf: seq<byte>, i: nat, ahead: Found)
    requires Parses(toks, inbuf, i) && Within(inbuf, i, ahead) && Genuine(inbuf, i, ahead)
    ensures Parses(toks + LazyFrom(inbuf, i, ahead), inbuf, |inbuf|)
    decreases |inbuf| - i
  {
    hide Parses, Choose, Genuine;
    if i == |inbuf| {
      assert toks + [] == toks;
    } else {
      var c := Choose(inbuf, i, ahead);
      ChoiceStep(toks, inbuf, i, ahead);
      LazyParsesFrom(toks + [c.tok], inbuf, c.next, c.ahead);
      assert toks + [c.tok] + LazyFrom(inbuf, c.next, c.ahead) == toks + ([c.tok] + LazyFrom(inbuf, c.next, c.ahead));
    }
  }

  /** The lazy parse of a block is a valid token list that stands for the block. */
  lemma LazyParses(inbuf: seq<byte>)
    requires |inbuf| <= SB_SIZE
    ensures Parses(LazyParse(inbuf), inbuf, |inbuf|) && ValidTokens(LazyParse(inbuf), 0)
  {
    hide LazyFrom;
    assert inbuf[..0] == [];
    LazyParsesFrom([], inbuf, 0, NOTHING);
    assert [] + LazyParse(inbuf) == LazyParse(inbuf);
  }

  // ----- the bytes

  /** The byte form of the lazy parse. */
  ghost function Body(block: seq<byte>): (body: seq<byte>)
    requires |block| <= SB_SIZE
    ensures ValidTokens(LazyParse(block), 0) && body == Serialize(LazyParse(block), 0)
  {
    LazyParses(block);
    Serialize(LazyParse(block), 0)
  }

  /** The bytes of a block, as a function of the block. */
  ghost function Compressed(block: seq<byte>): (bytes: seq<byte>)
    requires 1 <= |block| <= SB_SIZE
    ensures |bytes| <= SB_SIZE + 2
  {
    var body := Body(block);
    if 1 <= |body| < SB_SIZE then CompressedHeader(|body| + 2) + body else StoredForm(block)
  }

  lemma SerializedSize(toks: seq<Token>, p: nat)
    requires toks != [] && ValidTokens(toks, p)
    ensures |Serialize(toks, p)| >= 2
  {
    hide BytesOf, TagOf, ValidTokens;
  }

  /** What is written of a block encodes it. */
  lemma CompressedEncodes(block: seq<byte>)
    requires 1 <= |block| <= SB_SIZE
    ensures Encodes(Compressed(block), block) && 4 <= |Compressed(block)|
    ensures |Body(block)| < SB_SIZE ==> IsCompressedForm(LazyParse(block), Compressed(block), block)
  {
    hide Serialize, ValidTokens, LazyParse, ExpandFrom, Span, StoredForm, Body;
    LazyParses(block);
    var toks := LazyParse(block);
    assert toks != [] by { SpanOfNothing(toks); }
    SerializedSize(toks, 0);
    assert block[..|block|] == block;
    var bytes := Compressed(block);
    if |Body(block)| < SB_SIZE {
      assert IsCompressedForm(toks, bytes, block);
    }
  }

  /**
   The header word of what is written of a block, as the format has it: signature 3, the size
   less three, and the top bit exactly for a block that is compressed, which is then shorter.
   */
  lemma HeaderOf(block: seq<byte>)
    requires 1 <= |block| <= SB_SIZE
    ensures 4 <= |Compressed(block)| <= SB_SIZE + 2
    ensures var w := Le16(Compressed(block), 0);
            && w / 0x1000 % 8 == 3
            && w % 0x1000 == |Compressed(block)| - 3
            && (w >= 0x8000 <==> |Compressed(block)| < SB_SIZE + 2)
  {
    hide Body, Serialize, LazyParse, ValidTokens;
    CompressedEncodes(block);
    var bytes := Compressed(block);
    if 1 <= |Body(block)| < SB_SIZE {
      var n := |bytes| - 3;
      assert bytes[0] == n % 256 && bytes[1] == 0xb0 + n / 256;
      assert Le16(bytes, 0) == 0xb000 + n;
    } else {
      assert bytes[0] == 0xff && bytes[1] == 0x3f;
    }
  }

  lemma SpanOfNothing(toks: seq<Token>)
    requires Span(toks) >= 1
    ensures toks != []
  {
  }

  /** More tokens take more bytes, and one for their tag if they begin a group. */
  lemma {:induction false} SerializeGrows(a: seq<Token>, b: seq<Token>, p: nat)
    requires ValidTokens(a + b, p) && b != []
    ensures ValidTokens(a, p)
    ensures |Serialize(a + b, p)| >= |Serialize(a, p)| + (if |a| % 8 == 0 then 2 else 1)
    decreases |a|
  {
    hide ValidTokens, BytesOf, TagOf, Serialize, Span;
    ValidSplit(a, b, p);
    if a == [] {
      assert a + b == b;
      EmptyForms(p);
      SerializedSize(b, p);
    } else if |a| < 8 {
      GroupGrows(a, b, p);
    } else {
      var h, rest := a[..8], a[8..];
      assert a == h + rest && a + b == h + (rest + b);
      ValidSplit(h, rest, p);
      ValidSplit(h, rest + b, p);
      SerializeStep(h, rest, p);
      SerializeStep(h, rest + b, p);
      SerializeGrows(rest, b, p + Span(h));
    }
  }

  lemma GroupGrows(a: seq<Token>, b: seq<Token>, p: nat)
    requires 0 < |a| < 8 && ValidTokens(a + b, p) && b != [] && ValidTokens(a, p)
    ensures |Serialize(a + b, p)| >= |Serialize(a, p)| + 1
  {
    hide ValidTokens, BytesOf, TagOf, Serialize, Span, ValidToken;
    var all := a + b;
    var g := Group(all);
    var rest := all[|g|..];
    assert all == g + rest;
    ValidSplit(g, rest, p);
    EmptyForms(p + Span(a));
    SerializeStep(a, [], p);
    assert a + [] == a;
    SerializeStep(g, rest, p);
    assert g == a + g[|a|..] && g[|a|..] != [];
    BytesGrow(a, g[|a|..], p);
  }

  lemma {:induction false} BytesGrow(a: seq<Token>, b: seq<Token>, p: nat)
    requires ValidTokens(a + b, p) && b != []
    ensures ValidTokens(a, p) && |BytesOf(a + b, p)| >= |BytesOf(a, p)| + 1
    decreases |a|
  {
    hide TokenBytes, ValidToken;
    if a == [] {
      assert a + b == b;
    } else {
      assert (a + b)[1..] == a[1..] + b;
      BytesGrow(a[1..], b, p + Width(a[0]));
    }
  }

  // ----- blocks of zeroes

  ghost predicate AllZero(s: seq<byte>) {
    forall k | 0 <= k < |s| :: s[k] == 0
  }

  function ZeroLiterals(n: nat): (s: seq<Token>)
    ensures |s| == n
  {
    seq(n, _ => Literal(0))
  }

  /** The parse of a block of `n` zeroes: literals up to four bytes, else one and a phrase. */
  function ZeroParse(n: nat): seq<Token> {
    if n <= 4 then ZeroLiterals(n) else [Literal(0), Phrase(1, n - 1)]
  }

  /** There is nothing to repeat at the start, and too little to look for near the end. */
  lemma NoMatchAt(inbuf: seq<byte>, i: nat)
    requires i < |inbuf| <= SB_SIZE && (i == 0 || i + 4 > |inbuf|)
    ensures Choose(inbuf, i, NOTHING) == Choice(Literal(inbuf[i]), i + 1, NOTHING)
  {
    hide MaxLength, HashAt;
    assert BestAt(inbuf, i, 2, MaxLength(i)) == Found(2, 0);
  }

  lemma {:induction false} FewZeroes(inbuf: seq<byte>, i: nat)
    requires AllZero(inbuf) && i <= |inbuf| <= 4
    ensures LazyFrom(inbuf, i, NOTHING) == ZeroLiterals(|inbuf| - i)
    decreases |inbuf| - i
  {
    hide Choose, LazyFrom;
    LazyUnfolds(inbuf, i, NOTHING);
    if i < |inbuf| {
      NoMatchAt(inbuf, i);
      FewZeroes(inbuf, i + 1);
      assert [Literal(0)] + ZeroLiterals(|inbuf| - (i + 1)) == ZeroLiterals(|inbuf| - i);
    }
  }

  /** At position 1 the whole rest repeats the first byte. */
  lemma ZeroRepeat(inbuf: seq<byte>)
    requires AllZero(inbuf) && 5 <= |inbuf| <= SB_SIZE
    ensures Choose(inbuf, 1, NOTHING) == Choice(Phrase(1, |inbuf| - 1), |inbuf|, NOTHING)
  {
    hide Longest, Agreement;
    var n := |inbuf|;
    assert MaxLength(1) == 4098 by { OffsetBitsUnique(1, 4); Pow2Values(); }
    assert HashAt(inbuf, 0) == HashAt(inbuf, 1) == HashOf(0, 0, 0);
    assert Before(inbuf, HashAt(inbuf, 1), 1) == 0;
    assert IsMatch(inbuf, 1, 1, n - 1);
    FullAtOnce(inbuf, 1, 2, 4098);
    assert BestAt(inbuf, 1, 2, 4098) == Found(n - 1, -1);
    assert BestAt(inbuf, 2, n - 1, MaxLength(2)) == Found(n - 1, 0);
  }

  /** The lazy parse of a block of zeroes. */
  lemma ZeroesParse(inbuf: seq<byte>)
    requires AllZero(inbuf) && |inbuf| <= SB_SIZE
    ensures LazyParse(inbuf) == ZeroParse(|inbuf|)
  {
    hide Choose, LazyFrom, ZeroLiterals, AllZero;
    if |inbuf| <= 4 {
      FewZeroes(inbuf, 0);
    } else {
      NoMatchAt(inbuf, 0);
      assert inbuf[0] == 0 by { ZeroAt(inbuf, 0); }
      LazyUnfolds(inbuf, 0, NOTHING);
      ZeroRepeat(inbuf);
      LazyUnfolds(inbuf, 1, NOTHING);
      LazyUnfolds(inbuf, |inbuf|, NOTHING);
    }
  }

  lemma ZeroAt(s: seq<byte>, k: nat)
    requires AllZero(s) && k < |s|
    ensures s[k] == 0
  {
  }
}
