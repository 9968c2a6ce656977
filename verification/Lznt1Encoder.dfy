/**
 ntfs_compress_block: lazy parsing over the match finder, tag bytes filled in after the fact,
 and the uncompressed fallback, written in place into the output buffer.
 */
module Lznt1Encoder {
  import opened Bytes
  import opened Lznt1Format
  import opened Lznt1LazyParse
  import opened Lznt1MatchFinder
  import opened Lznt1Reference
  import opened Lznt1RoundTrip

  /** Room that one sub-block may touch: two bytes may be written before an overflow shows. */
  const OUT_ROOM: nat := 4100

  /** Nothing but the room of the sub-block at `base` has changed. */
  ghost predicate Kept(before: seq<byte>, after: seq<byte>, base: nat) {
    && |after| == |before|
    && forall k | 0 <= k < |before| && !(base <= k < base + OUT_ROOM) :: after[k] == before[k]
  }

  // ----- the output buffer between two tokens

  /**
   What the output holds after the tokens whole + open: the groups of `whole` are complete,
   the tag at `ptag` is reserved but not yet stored, and `tag` holds the bits of `open`.
   */
  ghost predicate Emitted(buf: seq<byte>, ptag: nat, xout: nat, tag: nat, whole: seq<Token>, open: seq<Token>) {
    && 2 <= ptag < xout <= |buf|
    && |whole| % 8 == 0 && |open| <= 8
    && ValidTokens(whole, 0) && ValidTokens(open, Span(whole))
    && buf[2..ptag] == Serialize(whole, 0)
    && buf[ptag + 1..xout] == BytesOf(open, Span(whole))
    && tag == TagOf(open)
  }

  lemma EmittedNothing(buf: seq<byte>)
    requires |buf| >= 3
    ensures Emitted(buf, 2, 3, 0, [], [])
  {
    EmptyForms(0);
    assert buf[2..2] == [] && buf[3..3] == [];
  }

  /** Appending the bytes of one token. */
  lemma EmitToken(buf: seq<byte>, buf': seq<byte>, ptag: nat, xout: nat, tag: nat,
                  whole: seq<Token>, open: seq<Token>, t: Token)
    requires Emitted(buf, ptag, xout, tag, whole, open) && |open| < 8
    requires ValidToken(t, Span(whole) + Span(open))
    requires xout + |TokenBytes(t, Span(whole) + Span(open))| <= |buf'|
    requires buf'[..xout] == buf[..xout]
    requires buf'[xout..xout + |TokenBytes(t, Span(whole) + Span(open))|] == TokenBytes(t, Span(whole) + Span(open))
    ensures Emitted(buf', ptag, xout + |TokenBytes(t, Span(whole) + Span(open))|,
                    tag + (if t.Phrase? then Pow2(|open|) else 0), whole, open + [t])
  {
    hide Serialize, BytesOf, TokenBytes, TagOf, ValidTokens, ValidToken, Span;
    var p := Span(whole);
    var tb := TokenBytes(t, p + Span(open));
    BytesAppend(open, t, p);
    TagAppend(open, t);
    assert buf'[2..ptag] == buf'[..xout][2..ptag] == buf[2..ptag];
    assert buf'[ptag + 1..xout] == buf'[..xout][ptag + 1..] == buf[..xout][ptag + 1..] == buf[ptag + 1..xout];
    assert buf'[ptag + 1..xout + |tb|] == buf'[ptag + 1..xout] + buf'[xout..xout + |tb|];
  }

  /** Storing the tag of a group closes it: the group joins the whole ones. */
  lemma StoreTag(buf: seq<byte>, ptag: nat, xout: nat, tag: nat, whole: seq<Token>, open: seq<Token>)
    requires Emitted(buf, ptag, xout, tag, whole, open) && open != []
    ensures tag < 256 && ValidTokens(whole + open, 0)
    ensures buf[ptag := tag][2..xout] == Serialize(whole + open, 0)
  {
    hide Serialize, BytesOf, ValidTokens, Span;
    SerializeAppend(whole, open, 0);
    var b := buf[ptag := tag];
    assert b[2..ptag] == buf[2..ptag];
    assert b[ptag + 1..xout] == buf[ptag + 1..xout];
    assert b[2..xout] == b[2..ptag] + ([b[ptag]] + b[ptag + 1..xout]);
  }

  /** After a full group the next byte is reserved for the next tag. */
  lemma NextGroup(buf: seq<byte>, ptag: nat, xout: nat, tag: nat, whole: seq<Token>, open: seq<Token>)
    requires Emitted(buf, ptag, xout, tag, whole, open) && |open| == 8 && xout < |buf|
    ensures tag < 256 && Emitted(buf[ptag := tag], xout, xout + 1, 0, whole + open, [])
  {
    hide Serialize, Span;
    StoreTag(buf, ptag, xout, tag, whole, open);
    EmptyForms(Span(whole + open));
    var b := buf[ptag := tag];
    assert b[xout + 1..xout + 1] == [];
  }

  lemma TokenWord(t: Token, p: nat, offs: int)
    requires t.Phrase? && ValidToken(t, p) && -offs == t.dist
    ensures OffsetBits(p) <= 12
    ensures var q := PhraseCode(offs, OffsetBits(p), t.len);
            0 <= q < 0x10000 && TokenBytes(t, p) == [q % 256, q / 256 % 256]
  {
    hide OffsetBits;
    PhraseWordFits(t, p);
  }

  /** The aggregated offset and size: the offset is negative, so its complement is the distance less one. */
  function PhraseCode(offs: int, bp: nat, len: nat): int
    requires bp <= 16
  {
    (-offs - 1) * Pow2(16 - bp) + (len - 3)
  }

  /** The output side of the encoder: the buffer, the reserved tag and its bits so far. */
  class TagWriter {
    const outbuf: array<byte>
    const base: nat
    var xout: nat
    var ptag: nat
    var tag: nat
    var ntag: nat
    ghost const before: seq<byte>
    ghost var whole: seq<Token>
    ghost var open: seq<Token>

    ghost function Room(): (s: seq<byte>)
      reads outbuf
      requires base + OUT_ROOM <= outbuf.Length
      ensures |s| == OUT_ROOM
    {
      outbuf[base..base + OUT_ROOM]
    }

    ghost predicate Valid()
      reads this, outbuf
    {
      && base + OUT_ROOM <= outbuf.Length && Kept(before, outbuf[..], base)
      && Emitted(Room(), ptag, xout, tag, whole, open)
      && ntag == 8 - |open|
    }

    ghost function Tokens(): seq<Token>
      reads this
    {
      whole + open
    }

    constructor (outbuf: array<byte>, base: nat)
      requires base + OUT_ROOM <= outbuf.Length
      ensures this.outbuf == outbuf && this.base == base && before == outbuf[..]
      ensures Valid() && Tokens() == [] && xout == 3 && ntag == 8
    {
      this.outbuf, this.base, before := outbuf, base, outbuf[..];
      xout, ptag, tag, ntag := 3, 2, 0, 8;
      whole, open := [], [];
      new;
      EmittedNothing(Room());
    }

    method Put(b: byte)
      requires base + OUT_ROOM <= outbuf.Length && xout < OUT_ROOM
      modifies this`xout, outbuf
      ensures xout == old(xout) + 1
      ensures Room() == old(Room())[old(xout) := b]
      ensures Kept(old(outbuf[..]), outbuf[..], base)
    {
      outbuf[base + xout] := b;
      xout := xout + 1;
    }

    method PutWord(q: nat)
      requires base + OUT_ROOM <= outbuf.Length && xout + 1 < OUT_ROOM
      modifies this`xout, outbuf
      ensures xout == old(xout) + 2
      ensures Kept(old(outbuf[..]), outbuf[..], base)
      ensures Room()[..old(xout)] == old(Room()[..xout])
      ensures Room()[old(xout)..old(xout) + 2] == [q % 256, q / 256 % 256]
    {
      Put(q % 256);
      Put(q / 256 % 256);
    }

    /** Emit a literal. */
    method Literal(b: byte)
      requires Valid() && ntag > 0 && xout < OUT_ROOM && ValidToken(Token.Literal(b), Span(whole) + Span(open))
      modifies this, outbuf
      ensures Valid() && ntag == old(ntag) - 1 && xout == old(xout) + 1
      ensures whole == old(whole) && open == old(open) + [Token.Literal(b)]
    {
      hide Emitted, ValidToken;
      ghost var was := Room();
      Put(b);
      assert |open| < 8;
      assert Room()[..old(xout)] == was[..old(xout)];
      assert Room()[old(xout)..old(xout) + 1] == [b];
      EmitToken(was, Room(), ptag, old(xout), tag, whole, open, Token.Literal(b));
      open := open + [Token.Literal(b)];
      ntag := ntag - 1;
    }

    /** Emit a phrase: `offs` is the negative offset, `bp` the bits given to it. */
    method Phrase(offs: int, bp: nat, len: nat)
      requires Valid() && ntag > 0 && xout + 1 < OUT_ROOM && offs < 0
      requires ValidToken(Token.Phrase(-offs, len), Span(whole) + Span(open))
      requires bp == OffsetBits(Span(whole) + Span(open))
      modifies this, outbuf
      ensures Valid() && ntag == old(ntag) - 1 && xout == old(xout) + 2
      ensures whole == old(whole) && open == old(open) + [Token.Phrase(-offs, len)]
    {
      hide Emitted, OffsetBits, PhraseCode, ValidToken, TokenBytes, Span, Pow2, Room;
      ghost var was, x := Room(), xout;
      ghost var t, p := Token.Phrase(-offs, len), Span(whole) + Span(open);
      TokenWord(t, p, offs);
      PutWord(PhraseCode(offs, bp, len));
      EmitToken(was, Room(), ptag, x, tag, whole, open, t);
      tag := tag + Pow2(8 - ntag);
      open := open + [t];
      ntag := ntag - 1;
    }

    /** Store the tag if fully used, and reserve the next one. */
    method CloseGroup()
      requires Valid() && xout < OUT_ROOM
      modifies this, outbuf
      ensures Valid() && ntag > 0 && Tokens() == old(Tokens())
      ensures xout == old(xout) + (if old(ntag) == 0 then 1 else 0)
    {
      hide Emitted;
      if ntag == 0 {
        ghost var was := Room();
        NextGroup(was, ptag, xout, tag, whole, open);
        assert ptag < OUT_ROOM by { EmittedBounds(was, ptag, xout, tag, whole, open); }
        outbuf[base + ptag] := tag;
        assert Room() == was[ptag := tag];
        ntag := 8;
        ptag := xout;
        xout := xout + 1;
        tag := 0;
        whole, open := whole + open, [];
        assert whole + open == whole;
      }
    }

    /** Store the last tag if partially used, else give its byte back. */
    method Finish()
      requires Valid()
      modifies this, outbuf
      ensures 2 <= xout <= old(xout) <= OUT_ROOM && base + OUT_ROOM <= outbuf.Length
      ensures ValidTokens(old(Tokens()), 0)
      ensures outbuf[base + 2..base + xout] == Serialize(old(Tokens()), 0)
      ensures xout == old(xout) - (if old(ntag) == 8 then 1 else 0)
      ensures Kept(before, outbuf[..], base)
    {
      hide Serialize, ValidTokens, BytesOf, TagOf, Span;
      if ntag == 8 {
        xout := xout - 1;
        assert whole + open == whole;
        assert xout == ptag by { EmptyGroup(Room(), ptag, xout + 1, tag, whole, open); }
      } else {
        ghost var was := Room();
        StoreTag(was, ptag, xout, tag, whole, open);
        outbuf[base + ptag] := tag;
        assert Room() == was[ptag := tag];
      }
      RoomSlice(xout);
    }

    lemma RoomSlice(n: nat)
      requires base + OUT_ROOM <= outbuf.Length && 2 <= n <= OUT_ROOM
      ensures outbuf[base + 2..base + n] == Room()[2..n]
    {
      var x, y := outbuf[base + 2..base + n], Room()[2..n];
      assert |x| == |y| && forall k | 0 <= k < |x| :: x[k] == y[k];
    }
  }

  lemma EmittedBounds(buf: seq<byte>, ptag: nat, xout: nat, tag: nat, whole: seq<Token>, open: seq<Token>)
    requires Emitted(buf, ptag, xout, tag, whole, open)
    ensures 2 <= ptag < xout <= |buf|
  {
  }

  lemma EmptyGroup(buf: seq<byte>, ptag: nat, xout: nat, tag: nat, whole: seq<Token>, open: seq<Token>)
    requires Emitted(buf, ptag, xout, tag, whole, open) && open == []
    ensures xout == ptag + 1
  {
    assert |buf[ptag + 1..xout]| == 0;
  }

  // ----- the bit split kept by doubling

  /** `bp`, `mxoff` and `mxsz` as the encoder keeps them, last widened for a position <= p. */
  ghost predicate Widened(bp: nat, mxoff: nat, mxsz: nat, p: nat) {
    && 4 <= bp <= 12 && p <= SB_SIZE
    && mxoff == Pow2(bp) && mxsz == Pow2(16 - bp) + 2
    && (bp == 4 || Pow2(bp - 1) < p)
  }

  lemma WidenStep(bp: nat, mxoff: nat, mxsz: nat, p: nat)
    requires Widened(bp, mxoff, mxsz, p) && mxoff < p
    ensures Widened(bp + 1, 2 * mxoff, (mxsz + 2) / 2, p)
  {
    Pow2Values();
    assert bp != 12;
    assert Pow2(16 - bp) == 2 * Pow2(15 - bp);
  }

  /** Once wide enough for `p`, the encoder's split is the format's. */
  lemma WidenedBits(bp: nat, mxoff: nat, mxsz: nat, p: nat)
    requires Widened(bp, mxoff, mxsz, p)
    ensures mxsz >= NICE_MATCH_LEN && mxoff >= 16 && bp <= 12 && p <= SB_SIZE
    ensures p <= mxoff ==> OffsetBits(p) == bp && mxsz == MaxLength(p)
  {
    Pow2Values();
    Pow2Monotone(4, 16 - bp);
    Pow2Monotone(4, bp);
    if p <= mxoff { OffsetBitsUnique(p, bp); }
  }

  lemma WidenedLater(bp: nat, mxoff: nat, mxsz: nat, p: nat, p': nat)
    requires Widened(bp, mxoff, mxsz, p) && p <= p' <= SB_SIZE
    ensures Widened(bp, mxoff, mxsz, p')
  {
  }

  /** The output between two tokens: a parse of the first `i` bytes, written down. */
  ghost predicate Written(w: TagWriter, inbuf: seq<byte>, i: nat, toks: seq<Token>, limit: nat)
    reads w, w.outbuf
  {
    && w.Valid() && w.xout <= limit && w.Tokens() == toks
    && Parses(toks, inbuf, i)
  }

  /** The match already looked for at the current position, if any. */
  ghost function Ahead(ctx: CompressContext, haveMatch: bool): Found
    reads ctx
  {
    if haveMatch then Found(ctx.size, ctx.rel) else NOTHING
  }

  /** The match finder between two tokens; `haveMatch` says that position `i` was already searched. */
  ghost predicate Finder(ctx: CompressContext, i: nat, haveMatch: bool, bp: nat, mxoff: nat)
    reads ctx, ctx.head, ctx.prev
  {
    && Widened(bp, mxoff, ctx.mxsz, i)
    && ctx.Chains(if haveMatch then i + 1 else i)
    && (haveMatch ==> i <= mxoff && 3 <= ctx.size)
    && Within(ctx.inbuf, i, Ahead(ctx, haveMatch)) && Genuine(ctx.inbuf, i, Ahead(ctx, haveMatch))
  }

  /** Adjust the maximum match length to position `i`, which may take several doublings. */
  method Widen(ctx: CompressContext, i: nat, bp0: nat, mxoff0: nat) returns (bp: nat, mxoff: nat)
    requires Widened(bp0, mxoff0, ctx.mxsz, i)
    modifies ctx`mxsz
    ensures Widened(bp, mxoff, ctx.mxsz, i) && i <= mxoff
  {
    bp, mxoff := bp0, mxoff0;
    while mxoff < i
      invariant Widened(bp, mxoff, ctx.mxsz, i)
      decreases i - mxoff
    {
      WidenStep(bp, mxoff, ctx.mxsz, i);
      bp := bp + 1;
      mxoff := mxoff * 2;
      ctx.mxsz := (ctx.mxsz + 2) / 2;
    }
  }

  /** Find the longest match at `i`, unless the previous step already looked there. */
  method Look(ctx: CompressContext, i: nat, haveMatch: bool, bp0: nat, mxoff0: nat) returns (bp: nat, mxoff: nat)
    requires Finder(ctx, i, haveMatch, bp0, mxoff0) && i < |ctx.inbuf|
    modifies ctx, ctx.head, ctx.prev
    ensures Widened(bp, mxoff, ctx.mxsz, i) && i <= mxoff && ctx.Chains(i + 1)
    ensures Found(ctx.size, ctx.rel) == MatchAt(ctx.inbuf, i, old(Ahead(ctx, haveMatch)))
  {
    hide Genuine, BestAt, MaxLength, Widened;
    bp, mxoff := bp0, mxoff0;
    if !haveMatch {
      bp, mxoff := Widen(ctx, i, bp, mxoff);
      WidenedBits(bp, mxoff, ctx.mxsz, i);
      ctx.BestMatch(i, 2);
    }
  }

  ghost predicate Apart(ctx: CompressContext, w: TagWriter) {
    && (w.outbuf as object) != ctx.head && (w.outbuf as object) != ctx.prev
  }

  lemma ApartIs(ctx: CompressContext, w: TagWriter)
    requires Apart(ctx, w)
    ensures (w.outbuf as object) != ctx.head && (w.outbuf as object) != ctx.prev
  {
  }

  lemma RoomIs()
    ensures SB_SIZE + 4 == OUT_ROOM
  {
  }

  /** Output the literal at `i`. */
  method EmitLiteral(w: TagWriter, inbuf: seq<byte>, i: nat, ghost toks: seq<Token>, ghost limit: nat)
    requires Written(w, inbuf, i, toks, limit) && i < |inbuf| && w.ntag > 0 && limit + 2 <= OUT_ROOM
    modifies w, w.outbuf
    ensures Written(w, inbuf, i + 1, toks + [Token.Literal(inbuf[i])], limit + 2)
  {
    hide w.Valid, Parses;
    LiteralStep(toks, inbuf, i);
    assert i == Span(w.whole) + Span(w.open) by { TokensSpan(w, inbuf, i); }
    w.Literal(inbuf[i]);
    assert w.whole + w.open == old(w.whole + w.open) + [Token.Literal(inbuf[i])];
  }

  /** Output a match of `len` bytes at `i`. */
  method EmitMatch(w: TagWriter, inbuf: seq<byte>, i: nat, offs: int, bp: nat, len: nat,
                   ghost toks: seq<Token>, ghost limit: nat)
    requires Written(w, inbuf, i, toks, limit) && w.ntag > 0 && limit + 2 <= OUT_ROOM
    requires Codable(inbuf, i, offs, bp, len)
    modifies w, w.outbuf
    ensures Written(w, inbuf, i + len, toks + [Token.Phrase(-offs, len)], limit + 2)
  {
    hide Parses, OffsetBits;
    PhraseStep(toks, inbuf, i, -offs, len);
    assert i == Span(w.whole) + Span(w.open) by { TokensSpan(w, inbuf, i); }
    w.Phrase(offs, bp, len);
    assert w.whole + w.open == old(w.whole + w.open) + [Token.Phrase(-offs, len)];
  }

  /** A match found at `i`, and `bp` the bits that its offset may take there. */
  ghost predicate Codable(inbuf: seq<byte>, i: nat, offs: int, bp: nat, len: nat) {
    && IsMatch(inbuf, i, -offs, len)
    && bp == OffsetBits(i) && bp <= 12
    && 3 <= len <= Pow2(16 - bp) + 2
  }

  lemma TokensSpan(w: TagWriter, inbuf: seq<byte>, i: nat)
    requires Parses(w.Tokens(), inbuf, i)
    ensures i == Span(w.whole) + Span(w.open)
  {
    SpanAppend(w.whole, w.open);
  }

  /** The phrase chosen at `i` can be coded there. */
  lemma ChosenCodable(inbuf: seq<byte>, i: nat, ahead: Found, bp: nat, mxoff: nat, mxsz: nat)
    requires Widened(bp, mxoff, mxsz, i) && i <= mxoff
    requires i < |inbuf| && Within(inbuf, i, ahead) && Genuine(inbuf, i, ahead) && Choose(inbuf, i, ahead).tok.Phrase?
    ensures var t := Choose(inbuf, i, ahead).tok; Codable(inbuf, i, 0 - t.dist, bp, t.len)
  {
    hide Choose, IsMatch;
    ChoiceGenuine(inbuf, i, ahead);
    WidenedBits(bp, mxoff, mxsz, i);
  }

  /** Run the rest of a match, from `next` on, through the finder. */
  method SkipMatch(ctx: CompressContext, next: nat, end: nat, bp: nat, mxoff: nat)
    requires next <= end <= |ctx.inbuf| <= SB_SIZE && ctx.Chains(next) && Widened(bp, mxoff, ctx.mxsz, next)
    modifies ctx.head, ctx.prev
    ensures Finder(ctx, end, false, bp, mxoff)
  {
    hide *;
    WidenedLater(bp, mxoff, ctx.mxsz, next, end);
    ctx.SkipTo(next, end);
    FinderIntro(ctx, end, bp, mxoff);
  }

  /** Output the match at `i` and run the rest of it, from `next` on, through the finder. */
  method CodeMatch(ctx: CompressContext, w: TagWriter, i: nat, offs: int, bpCur: nat, len: nat,
                   next: nat, bp: nat, mxoff: nat, ghost toks: seq<Token>, ghost limit: nat)
    requires Apart(ctx, w) && Written(w, ctx.inbuf, i, toks, limit) && w.ntag > 0 && limit + 2 <= OUT_ROOM
    requires Codable(ctx.inbuf, i, offs, bpCur, len)
    requires i <= next <= i + len <= |ctx.inbuf| <= SB_SIZE && ctx.Chains(next) && Widened(bp, mxoff, ctx.mxsz, next)
    modifies ctx.head, ctx.prev, w, w.outbuf
    ensures Written(w, ctx.inbuf, i + len, toks + [Token.Phrase(-offs, len)], limit + 2)
    ensures Finder(ctx, i + len, false, bp, mxoff)
  {
    hide *;
    ApartIs(ctx, w);
    EmitMatch(w, ctx.inbuf, i, offs, bpCur, len, toks, limit);
    SkipMatch(ctx, next, i + len, bp, mxoff);
  }

  lemma FinderIntro(ctx: CompressContext, i: nat, bp: nat, mxoff: nat)
    requires Widened(bp, mxoff, ctx.mxsz, i) && ctx.Chains(i) && i <= |ctx.inbuf|
    ensures Finder(ctx, i, false, bp, mxoff)
  {
  }

  lemma FinderMatch(ctx: CompressContext, i: nat, bp: nat, mxoff: nat, ahead: Found)
    requires Widened(bp, mxoff, ctx.mxsz, i) && ctx.Chains(i + 1) && i <= mxoff
    requires ahead == Found(ctx.size, ctx.rel) && ahead.len >= 3 && Within(ctx.inbuf, i, ahead) && Genuine(ctx.inbuf, i, ahead)
    ensures Finder(ctx, i, true, bp, mxoff) && Ahead(ctx, true) == ahead
  {
  }

  /** Adjust to the next position: one doubling is enough, as position `i` was just adjusted to. */
  method WidenOnce(ctx: CompressContext, i: nat, bp0: nat, mxoff0: nat) returns (bp: nat, mxoff: nat)
    requires Widened(bp0, mxoff0, ctx.mxsz, i) && i <= mxoff0 && i < SB_SIZE
    modifies ctx`mxsz
    ensures Widened(bp, mxoff, ctx.mxsz, i + 1) && i + 1 <= mxoff && ctx.mxsz >= NICE_MATCH_LEN && ctx.mxsz == MaxLength(i + 1)
  {
    hide Widened, MaxLength, OffsetBits, Pow2;
    bp, mxoff := bp0, mxoff0;
    WidenedBits(bp, mxoff, ctx.mxsz, i);
    WidenedLater(bp, mxoff, ctx.mxsz, i, i + 1);
    if mxoff < i + 1 {
      WidenStep(bp, mxoff, ctx.mxsz, i + 1);
      bp := bp + 1;
      mxoff := mxoff * 2;
      ctx.mxsz := (ctx.mxsz + 2) / 2;
    }
    WidenedBits(bp, mxoff, ctx.mxsz, i + 1);
  }

  /** Is there a longer match one position further? */
  method LookNext(ctx: CompressContext, i: nat, bp0: nat, mxoff0: nat) returns (longer: bool, bp: nat, mxoff: nat)
    requires Widened(bp0, mxoff0, ctx.mxsz, i) && i <= mxoff0 && ctx.Chains(i + 1)
    requires 3 <= ctx.size < NICE_MATCH_LEN && i + ctx.size <= |ctx.inbuf|
    modifies ctx, ctx.head, ctx.prev
    ensures Widened(bp, mxoff, ctx.mxsz, i + 1) && i + 1 <= mxoff && ctx.Chains(i + 2)
    ensures i + 1 <= SB_SIZE && Found(ctx.size, ctx.rel) == BestAt(ctx.inbuf, i + 1, old(ctx.size), MaxLength(i + 1))
    ensures longer == (ctx.size > old(ctx.size))
  {
    hide BestAt, MaxLength, Widened;
    var j := i + ctx.size;
    bp, mxoff := WidenOnce(ctx, i, bp0, mxoff0);
    ctx.BestMatch(i + 1, ctx.size);
    var k := i + 1 + ctx.size;
    longer := k > j + 1;
  }

  /** The cases of the lazy choice. */
  lemma ChooseIs(inbuf: seq<byte>, i: nat, ahead: Found, f: Found)
    requires i < |inbuf| && Within(inbuf, i, ahead) && f == MatchAt(inbuf, i, ahead)
    ensures var c := Choose(inbuf, i, ahead);
            && (f.len >= 3 ==> i + f.len <= |inbuf|)
            && (f.len < 3 ==> c == Choice(Token.Literal(inbuf[i]), i + 1, NOTHING))
            && (f.len >= NICE_MATCH_LEN ==> c == Choice(Token.Phrase(Abs(f.back), f.len), i + f.len, NOTHING))
            && (3 <= f.len < NICE_MATCH_LEN ==>
                  var g := BestAt(inbuf, i + 1, f.len, MaxLength(i + 1));
                  c == if g.len > f.len then Choice(Token.Literal(inbuf[i]), i + 1, g)
                       else Choice(Token.Phrase(Abs(f.back), f.len), i + f.len, NOTHING))
  {
    hide BestAt, MaxLength;
  }

  /** A match taken at once or for want of a longer one: its offset is negative. */
  lemma TakenBack(inbuf: seq<byte>, i: nat, ahead: Found, f: Found)
    requires i < |inbuf| && Within(inbuf, i, ahead) && Genuine(inbuf, i, ahead) && f == MatchAt(inbuf, i, ahead) && f.len >= 3
    ensures f.back < 0
  {
    hide BestAt, MaxLength;
    BestGenuine(inbuf, i, 2);
  }

  /**
   One token.  A long match is taken at once, and ends the block (`stop`) when it reaches its
   end; a short one only if the next position has no longer match; otherwise a literal.
   */
  method Step(ctx: CompressContext, w: TagWriter, i0: nat, haveMatch0: bool, bp0: nat, mxoff0: nat,
              ghost toks: seq<Token>, ghost limit: nat)
    returns (i: nat, haveMatch: bool, bp: nat, mxoff: nat, stop: bool, ghost c: Choice)
    requires Apart(ctx, w) && Written(w, ctx.inbuf, i0, toks, limit) && w.ntag > 0 && limit + 2 <= OUT_ROOM
    requires i0 < |ctx.inbuf| <= SB_SIZE && Finder(ctx, i0, haveMatch0, bp0, mxoff0)
    requires Within(ctx.inbuf, i0, Ahead(ctx, haveMatch0))
    modifies ctx, ctx.head, ctx.prev, w, w.outbuf
    ensures c == Choose(ctx.inbuf, i0, old(Ahead(ctx, haveMatch0))) && i == c.next
    ensures Written(w, ctx.inbuf, i, toks + [c.tok], limit + 2)
    ensures stop ==> i == |ctx.inbuf|
    ensures !stop ==> Finder(ctx, i, haveMatch, bp, mxoff) && Ahead(ctx, haveMatch) == c.ahead
  {
    hide *;
    ghost var inbuf, ahead := ctx.inbuf, Ahead(ctx, haveMatch0);
    FinderAhead(ctx, i0, haveMatch0, bp0, mxoff0);
    stop, i, haveMatch := false, i0, false;
    bp, mxoff := Look(ctx, i, haveMatch0, bp0, mxoff0);
    c := Choose(inbuf, i0, ahead);
    ghost var f := Found(ctx.size, ctx.rel);
    ChooseIs(inbuf, i0, ahead, f);
    ChoiceGenuine(inbuf, i0, ahead);
    if ctx.size >= 3 {
      var len, offs, bpCur := ctx.size, ctx.rel, bp;
      TakenBack(inbuf, i0, ahead, f);
      assert c.tok.Phrase? ==> Codable(inbuf, i, offs, bp, len) by {
        if c.tok.Phrase? { ChosenCodable(inbuf, i, ahead, bp, mxoff, ctx.mxsz); AbsBack(offs); }
      }
      AbsBack(offs);
      if len >= NICE_MATCH_LEN && i + len == |ctx.inbuf| {
        EmitMatch(w, ctx.inbuf, i, offs, bpCur, len, toks, limit);
        i, stop := i + len, true;
      } else if len >= NICE_MATCH_LEN {
        WidenedLater(bp, mxoff, ctx.mxsz, i, i + 1);
        CodeMatch(ctx, w, i, offs, bpCur, len, i + 1, bp, mxoff, toks, limit);
        i := i + len;
        AheadNothing(ctx);
      } else {
        var longer;
        longer, bp, mxoff := LookNext(ctx, i, bp, mxoff);
        if longer {
          EmitLiteral(w, ctx.inbuf, i, toks, limit);
          i, haveMatch := i + 1, true;
          FinderMatch(ctx, i, bp, mxoff, c.ahead);
        } else {
          WidenedLater(bp, mxoff, ctx.mxsz, i + 1, i + 2);
          CodeMatch(ctx, w, i, offs, bpCur, len, i + 2, bp, mxoff, toks, limit);
          i := i + len;
          AheadNothing(ctx);
        }
      }
    } else {
      EmitLiteral(w, ctx.inbuf, i, toks, limit);
      i := i + 1;
      WidenedLater(bp, mxoff, ctx.mxsz, i0, i);
      FinderIntro(ctx, i, bp, mxoff);
      AheadNothing(ctx);
    }
  }

  lemma FinderAhead(ctx: CompressContext, i: nat, haveMatch: bool, bp: nat, mxoff: nat)
    requires Finder(ctx, i, haveMatch, bp, mxoff)
    ensures i <= SB_SIZE && Within(ctx.inbuf, i, Ahead(ctx, haveMatch)) && Genuine(ctx.inbuf, i, Ahead(ctx, haveMatch))
  {
  }

  lemma AheadNothing(ctx: CompressContext)
    ensures Ahead(ctx, false) == NOTHING
  {
  }

  lemma AbsBack(offs: int)
    requires offs < 0
    ensures Abs(offs) == -offs
  {
  }

  /** Close the group of the last token, keeping the parse. */
  method CloseTag(w: TagWriter, ghost inbuf: seq<byte>, ghost i: nat, ghost toks: seq<Token>, ghost limit: nat)
    requires Written(w, inbuf, i, toks, limit) && limit < OUT_ROOM
    modifies w, w.outbuf
    ensures Written(w, inbuf, i, toks, limit + 1) && w.ntag > 0
  {
    hide Parses, w.Tokens;
    w.CloseGroup();
  }

  /** Store the compressed header over a finished sub-block of `xout` bytes. */
  method StoreHeader(outbuf: array<byte>, base: nat, xout: nat, ghost body: seq<byte>)
    requires 3 <= xout < SB_SIZE + 2 && base + OUT_ROOM <= outbuf.Length
    requires outbuf[base + 2..base + xout] == body
    modifies outbuf
    ensures outbuf[base..base + xout] == CompressedHeader(xout) + body
    ensures Kept(old(outbuf[..]), outbuf[..], base)
  {
    outbuf[base] := (xout - 3) % 256;
    outbuf[base + 1] := 0xb0 + (xout - 3) / 256 % 16;
    assert outbuf[base + 2..base + xout] == body;
    var h := CompressedHeader(xout);
    assert outbuf[base] == h[0] && outbuf[base + 1] == h[1];
    assert outbuf[base..base + xout] == [outbuf[base], outbuf[base + 1]] + outbuf[base + 2..base + xout];
  }

  /** The uncompressed fallback. */
  method StoreBlock(inbuf: seq<byte>, outbuf: array<byte>, base: nat)
    requires |inbuf| <= SB_SIZE && base + OUT_ROOM <= outbuf.Length
    modifies outbuf
    ensures outbuf[base..base + SB_SIZE + 2] == StoredForm(inbuf)
    ensures Kept(old(outbuf[..]), outbuf[..], base)
  {
    forall k | 0 <= k < SB_SIZE {
      outbuf[base + 2 + k] := if k < |inbuf| then inbuf[k] else 0;
    }
    outbuf[base] := 0xff;
    outbuf[base + 1] := 0x3f;
  }

  /** The tokens are the whole lazy parse, or those left would not fit. */
  ghost predicate Settled(toks: seq<Token>, inbuf: seq<byte>, i: nat)
    requires |inbuf| <= SB_SIZE
  {
    if i == |inbuf| then toks == LazyParse(inbuf) else |Body(inbuf)| >= SB_SIZE
  }

  /** Choose between the compressed and the uncompressed form once the last tag is stored. */
  method Seal(outbuf: array<byte>, base: nat, xout: nat, inbuf: seq<byte>, i: nat, ghost toks: seq<Token>)
    returns (size: nat)
    requires 1 <= |inbuf| <= SB_SIZE && Parses(toks, inbuf, i) && Settled(toks, inbuf, i)
    requires 2 <= xout && base + OUT_ROOM <= outbuf.Length && base + xout <= outbuf.Length
    requires outbuf[base + 2..base + xout] == Serialize(toks, 0)
    modifies outbuf
    ensures size <= SB_SIZE + 2 && outbuf[base..base + size] == Compressed(inbuf)
    ensures Kept(old(outbuf[..]), outbuf[..], base)
  {
    hide Parses, Serialize, ValidTokens, CompressedHeader, StoredForm, LazyParse, Body;
    assert i <= |inbuf| by { ParsesBound(toks, inbuf, i); }
    if i >= |inbuf| && xout < SB_SIZE + 2 {
      ghost var body := outbuf[base + 2..base + xout];
      BodySize(inbuf);
      assert body == Body(inbuf);
      StoreHeader(outbuf, base, xout, body);
      size := xout;
    } else {
      assert i == |inbuf| ==> |Body(inbuf)| == xout - 2;
      StoreBlock(inbuf, outbuf, base);
      size := SB_SIZE + 2;
    }
  }

  lemma ParsesBound(toks: seq<Token>, inbuf: seq<byte>, i: nat)
    requires Parses(toks, inbuf, i)
    ensures i <= |inbuf|
  {
  }

  lemma BodySize(inbuf: seq<byte>)
    requires 1 <= |inbuf| <= SB_SIZE
    ensures |Body(inbuf)| >= 2
  {
    hide ValidTokens, Serialize, ExpandFrom, LazyParse;
    LazyParses(inbuf);
    assert LazyParse(inbuf) != [] by { SpanOfNothing(LazyParse(inbuf)); }
    SerializedSize(LazyParse(inbuf), 0);
  }

  /** Where the parse was broken off, the whole of it does not fit. */
  lemma BrokenOff(toks: seq<Token>, inbuf: seq<byte>, size: nat)
    requires 1 <= |inbuf| <= SB_SIZE && toks < LazyParse(inbuf) && ValidTokens(toks, 0)
    requires |Serialize(toks, 0)| == size && size + (if |toks| % 8 == 0 then 2 else 1) >= SB_SIZE
    ensures |Body(inbuf)| >= SB_SIZE
  {
    hide ValidTokens, Serialize, LazyParse;
    var rest := LazyParse(inbuf)[|toks|..];
    assert toks + rest == LazyParse(inbuf);
    LazyParses(inbuf);
    SerializeGrows(toks, rest, 0);
  }

  /** The state in which the main loop ends. */
  ghost predicate Ended(w: TagWriter, inbuf: seq<byte>, i: nat, toks: seq<Token>)
    reads w
    requires |inbuf| <= SB_SIZE
  {
    if i == |inbuf| then toks == LazyParse(inbuf)
    else toks < LazyParse(inbuf) && w.ntag > 0 && w.xout >= SB_SIZE + 2
  }

  method FinishBlock(w: TagWriter, inbuf: seq<byte>, i: nat, ghost toks: seq<Token>) returns (size: nat)
    requires 1 <= |inbuf| <= SB_SIZE && Written(w, inbuf, i, toks, OUT_ROOM) && Ended(w, inbuf, i, toks)
    modifies w, w.outbuf
    ensures size <= SB_SIZE + 2 && w.base + OUT_ROOM <= w.outbuf.Length
    ensures w.outbuf[w.base..w.base + size] == Compressed(inbuf)
    ensures Kept(w.before, w.outbuf[..], w.base)
  {
    hide w.Valid, Parses, Serialize, ValidTokens, LazyParse, Body, Compressed;
    ghost var x, open := w.xout, w.ntag;
    OpenTokens(w);
    w.Finish();
    assert |w.outbuf[w.base + 2..w.base + w.xout]| == w.xout - 2;
    if i != |inbuf| { BrokenOff(toks, inbuf, w.xout - 2); }
    size := Seal(w.outbuf, w.base, w.xout, inbuf, i, toks);
  }

  lemma OpenTokens(w: TagWriter)
    requires w.Valid()
    ensures w.ntag > 0 ==> (|w.Tokens()| % 8 == 0 <==> w.ntag == 8)
  {
    hide Serialize, ValidTokens, BytesOf, TagOf;
  }

  lemma AtLimit(w: TagWriter, inbuf: seq<byte>, i: nat, toks: seq<Token>, limit: nat, limit': nat)
    requires Written(w, inbuf, i, toks, limit) && (w.xout <= limit' || limit <= limit')
    ensures Written(w, inbuf, i, toks, limit')
  {
  }

  lemma Start(ctx: CompressContext, w: TagWriter)
    requires ctx.Chains(0) && ctx.mxsz == 4098
    requires w.Valid() && w.Tokens() == [] && w.xout == 3
    ensures Written(w, ctx.inbuf, 0, [], OUT_ROOM) && Finder(ctx, 0, false, 4, 16)
  {
    Pow2Values();
    assert Pow2(12) == 4096;
    EmptyForms(0);
    assert ctx.inbuf[..0] == [];
  }

  /** The tokens so far are the first ones of the lazy parse, and the rest begins at `i`. */
  ghost predicate Progress(inbuf: seq<byte>, i: nat, toks: seq<Token>, ahead: Found) {
    Within(inbuf, i, ahead) && LazyParse(inbuf) == toks + LazyFrom(inbuf, i, ahead)
  }

  lemma ProgressStart(inbuf: seq<byte>)
    requires |inbuf| <= SB_SIZE
    ensures Progress(inbuf, 0, [], NOTHING)
  {
    assert [] + LazyFrom(inbuf, 0, NOTHING) == LazyFrom(inbuf, 0, NOTHING);
  }

  lemma ProgressStep(inbuf: seq<byte>, i: nat, toks: seq<Token>, ahead: Found)
    requires Progress(inbuf, i, toks, ahead) && i < |inbuf|
    ensures var c := Choose(inbuf, i, ahead); Progress(inbuf, c.next, toks + [c.tok], c.ahead)
  {
    hide Choose, LazyParse, LazyFrom;
    LazyUnfolds(inbuf, i, ahead);
    var c := Choose(inbuf, i, ahead);
    assert toks + [c.tok] + LazyFrom(inbuf, c.next, c.ahead) == toks + ([c.tok] + LazyFrom(inbuf, c.next, c.ahead));
  }

  lemma ProgressEnd(inbuf: seq<byte>, i: nat, toks: seq<Token>, ahead: Found)
    requires Progress(inbuf, i, toks, ahead)
    ensures if i == |inbuf| then toks == LazyParse(inbuf) else toks < LazyParse(inbuf)
  {
    hide LazyParse, Choose, LazyFrom;
    LazyUnfolds(inbuf, i, ahead);
    assert toks + [] == toks;
  }

  /** One turn of the main loop: a token, and its tag if that is now full. */
  method Turn(ctx: CompressContext, w: TagWriter, i0: nat, haveMatch0: bool, bp0: nat, mxoff0: nat, ghost toks: seq<Token>)
    returns (i: nat, haveMatch: bool, bp: nat, mxoff: nat, stop: bool, ghost c: Choice)
    requires Apart(ctx, w) && Written(w, ctx.inbuf, i0, toks, OUT_ROOM) && w.ntag > 0 && w.xout < SB_SIZE + 2
    requires i0 < |ctx.inbuf| <= SB_SIZE && Finder(ctx, i0, haveMatch0, bp0, mxoff0)
    requires Within(ctx.inbuf, i0, Ahead(ctx, haveMatch0))
    modifies ctx, ctx.head, ctx.prev, w, w.outbuf
    ensures c == Choose(ctx.inbuf, i0, old(Ahead(ctx, haveMatch0))) && i == c.next
    ensures Written(w, ctx.inbuf, i, toks + [c.tok], OUT_ROOM)
    ensures stop ==> i == |ctx.inbuf|
    ensures !stop ==> w.ntag > 0 && Finder(ctx, i, haveMatch, bp, mxoff) && Ahead(ctx, haveMatch) == c.ahead
  {
    hide *;
    RoomIs();
    AtLimit(w, ctx.inbuf, i0, toks, OUT_ROOM, SB_SIZE + 1);
    i, haveMatch, bp, mxoff, stop, c := Step(ctx, w, i0, haveMatch0, bp0, mxoff0, toks, SB_SIZE + 1);
    if !stop {
      CloseTag(w, ctx.inbuf, i, toks + [c.tok], SB_SIZE + 3);
    } else {
      AtLimit(w, ctx.inbuf, i, toks + [c.tok], SB_SIZE + 3, OUT_ROOM);
    }
  }

  /** The main loop: tokens until the block or the output room is exhausted. */
  method ParseBlock(ctx: CompressContext, w: TagWriter) returns (i: nat, ghost toks: seq<Token>)
    requires Apart(ctx, w) && 1 <= |ctx.inbuf| <= SB_SIZE
    requires Written(w, ctx.inbuf, 0, [], OUT_ROOM) && Finder(ctx, 0, false, 4, 16) && w.ntag > 0
    modifies ctx, ctx.head, ctx.prev, w, w.outbuf
    ensures Written(w, ctx.inbuf, i, toks, OUT_ROOM) && Ended(w, ctx.inbuf, i, toks)
  {
    hide Written, Finder, Ahead, Progress, Within, Choose, LazyParse, LazyFrom, Apart;
    var inbuf := ctx.inbuf;
    var n := |inbuf|;
    var haveMatch, bp, mxoff, stop := false, 4, 16, false;
    i, toks := 0, [];
    ghost var ahead := NOTHING;
    AheadNothing(ctx);
    ProgressStart(inbuf);
    while !stop && i < n && w.xout < SB_SIZE + 2
      invariant i <= n && (stop ==> i == n) && Written(w, inbuf, i, toks, OUT_ROOM)
      invariant !stop ==> w.ntag > 0 && Finder(ctx, i, haveMatch, bp, mxoff) && ahead == Ahead(ctx, haveMatch)
      invariant Progress(inbuf, i, toks, ahead)
      decreases n - i, !stop
    {
      ProgressStep(inbuf, i, toks, ahead);
      FinderAhead(ctx, i, haveMatch, bp, mxoff);
      ghost var c;
      i, haveMatch, bp, mxoff, stop, c := Turn(ctx, w, i, haveMatch, bp, mxoff, toks);
      toks, ahead := toks + [c.tok], c.ahead;
      assert i <= n by { ProgressBound(inbuf, i, toks, ahead); }
    }
    ProgressEnd(inbuf, i, toks, ahead);
  }

  lemma ProgressBound(inbuf: seq<byte>, i: nat, toks: seq<Token>, ahead: Found)
    requires Progress(inbuf, i, toks, ahead)
    ensures i <= |inbuf|
  {
  }

  method Prepare(inbuf: seq<byte>, outbuf: array<byte>, base: nat) returns (ctx: CompressContext, w: TagWriter)
    requires 1 <= |inbuf| <= SB_SIZE && base + OUT_ROOM <= outbuf.Length
    ensures fresh(ctx) && fresh(ctx.head) && fresh(ctx.prev) && fresh(w)
    ensures Apart(ctx, w) && ctx.inbuf == inbuf && w.outbuf == outbuf && w.base == base && w.before == outbuf[..]
    ensures Written(w, inbuf, 0, [], OUT_ROOM) && Finder(ctx, 0, false, 4, 16) && w.ntag > 0
  {
    hide Written, Finder;
    ctx := new CompressContext(inbuf);
    w := new TagWriter(outbuf, base);
    ctx.mxsz := 4098;
    Start(ctx, w);
  }

  /** ntfs_compress_block */
  method CompressBlock(inbuf: seq<byte>, outbuf: array<byte>, base: nat) returns (size: nat)
    requires 1 <= |inbuf| <= SB_SIZE && base + OUT_ROOM <= outbuf.Length
    modifies outbuf
    ensures 4 <= size <= SB_SIZE + 2 && outbuf[base..base + size] == Compressed(inbuf)
    ensures Encodes(outbuf[base..base + size], inbuf)
    ensures var w := Le16(outbuf[base..base + size], 0);
            w / 0x1000 % 8 == 3 && w % 0x1000 == size - 3 && (w >= 0x8000 <==> size < SB_SIZE + 2)
    ensures Kept(old(outbuf[..]), outbuf[..], base)
  {
    hide *;
    RoomIs();
    var ctx, w := Prepare(inbuf, outbuf, base);
    ghost var toks;
    var i;
    i, toks := ParseBlock(ctx, w);
    size := FinishBlock(w, inbuf, i, toks);
    CompressedEncodes(inbuf);
    HeaderOf(inbuf);
  }
}
