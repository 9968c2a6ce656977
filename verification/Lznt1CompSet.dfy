/**
 ntfs_comp_set: compress a set of sub-blocks into one compression block, decide from the
 compressed bytes alone whether the data was all zeroes, and give up when nothing is saved.
 Writing to the device is left out: the bytes to write are the result.
 */
module Lznt1CompSet {
  import opened Bytes
  import opened Lznt1Format
  import opened Lznt1Decoder
  import opened Lznt1RoundTrip
  import opened Lznt1LazyParse
  import opened Lznt1Reference
  import opened Lznt1Encoder

  datatype SetResult = NothingToWrite | GaveUp | Write(data: seq<byte>)

  // ----- the zero test

  /** What the switch on the size and the first bytes of a compressed sub-block accepts. */
  predicate LooksZero(bytes: seq<byte>) {
    match |bytes|
    case 4 => bytes == [0x01, 0xb0, 0x00, 0x00]
    case 5 => bytes == [0x02, 0xb0, 0x00, 0x00, 0x00]
    case 6 => bytes[..4] == [0x03, 0xb0, 0x02, 0x00]
    case _ => false
  }

  lemma {:induction false} CopyOfZeroes(out: seq<byte>, dist: nat, len: nat)
    requires 1 <= dist <= |out| && AllZero(out)
    ensures AllZero(CopyBack(out, dist, len))
    decreases len
  {
    if len != 0 { CopyOfZeroes(out + [out[|out| - dist]], dist, len - 1); }
  }

  lemma PaddedZero(block: seq<byte>, s: seq<byte>)
    requires |block| <= SB_SIZE && AllZero(s) && Fit(block, SB_SIZE) == s
    ensures AllZero(block)
  {
    forall k | 0 <= k < |block|
      ensures block[k] == 0
    {
      assert Fit(block, SB_SIZE)[k] == block[k];
    }
  }

  /** One literal zero read under a clear tag bit. */
  lemma ReadZeroLiteral(tag: nat, k: nat, cb: seq<byte>, pos: nat, sbEnd: nat, out: seq<byte>)
    requires tag % 2 == 0 && k > 0 && pos < sbEnd <= |cb| && cb[pos] == 0 && |out| < SB_SIZE
    ensures ReadTokens(tag, k, cb, pos, sbEnd, out, 0, SB_SIZE)
         == ReadTokens(tag / 2, k - 1, cb, pos + 1, sbEnd, out + [0], 0, SB_SIZE)
  {
  }

  lemma ReadTagsEnd(cb: seq<byte>, sbEnd: nat, out: seq<byte>)
    requires sbEnd <= |cb| && AllZero(out) && |out| <= SB_SIZE
    ensures ReadTags(cb, sbEnd, sbEnd, out, 0, SB_SIZE).At?
    ensures AllZero(ReadTags(cb, sbEnd, sbEnd, out, 0, SB_SIZE).out)
  {
  }

  /** Whatever the test accepts can only decode to zeroes. */
  lemma LooksZeroDecodes(cb: seq<byte>, n: nat)
    requires n + 2 == |cb| && LooksZero(cb[..n]) && ReadSubBlock(cb, 0, [], SB_SIZE).At?
    ensures AllZero(ReadSubBlock(cb, 0, [], SB_SIZE).out)
  {
    hide ReadTokens, ReadTags, SplitWord, CopyBack;
    var b := cb[..n];
    assert forall k | 0 <= k < n :: cb[k] == b[k];
    assert n == 6 ==> b[0] == b[..4][0] && b[1] == b[..4][1] && b[2] == b[..4][2] && b[3] == b[..4][3];
    assert cb[0] == n - 3 && cb[1] == 0xb0 && cb[3] == 0;
    assert Le16(cb, 0) == 0xb000 + (n - 3);
    assert ReadSubBlock(cb, 0, [], SB_SIZE) == ReadTags(cb, 2, n, [], 0, SB_SIZE);
    FirstTag(cb, n);
    ReadZeroLiteral(cb[2], 8, cb, 3, n, []);
    assert [] + [0] == [0 as byte];
    if n == 4 {
      ReadNothing(0, 7, cb, 4, n, [0], 0, SB_SIZE);
      ReadTagsEnd(cb, n, [0]);
    } else if n == 5 {
      ReadZeroLiteral(0, 7, cb, 4, n, [0]);
      ReadNothing(0, 6, cb, 5, n, [0] + [0], 0, SB_SIZE);
      ReadTagsEnd(cb, n, [0] + [0]);
    } else {
      PhraseOfZero(cb);
    }
  }

  lemma FirstTag(cb: seq<byte>, n: nat)
    requires 2 < n <= |cb|
    ensures var c := ReadTokens(cb[2], 8, cb, 3, n, [], 0, SB_SIZE);
            ReadTags(cb, 2, n, [], 0, SB_SIZE) == if c.At? then ReadTags(cb, c.pos, n, c.out, 0, SB_SIZE) else c
  {
    hide ReadTokens;
  }

  lemma PhraseOfZero(cb: seq<byte>)
    requires |cb| == 8
    ensures var c := ReadTokens(1, 7, cb, 4, 6, [0], 0, SB_SIZE);
            c.At? ==> c.pos == 6 && AllZero(c.out) && |c.out| <= SB_SIZE
                      && ReadTags(cb, 6, 6, c.out, 0, SB_SIZE).At?
                      && AllZero(ReadTags(cb, 6, 6, c.out, 0, SB_SIZE).out)
  {
    hide SplitWord, CopyBack, ReadTags;
    var (dist, len) := SplitWord(Le16(cb, 4), 1);
    if dist <= 1 && 1 + len <= SB_SIZE {
      CopyOfZeroes([0], dist, len);
      ReadNothing(0, 6, cb, 6, 6, CopyBack([0], dist, len), 0, SB_SIZE);
      ReadTagsEnd(cb, 6, CopyBack([0], dist, len));
    }
  }

  /** The bytes the encoder makes of `n` zeroes. */
  lemma ZeroBytes(n: nat, bytes: seq<byte>, block: seq<byte>)
    requires 1 <= n <= SB_SIZE && IsCompressedForm(ZeroParse(n), bytes, block)
    ensures |bytes| <= 7 && (LooksZero(bytes) <==> n != 3 && n != 4)
  {
    var toks := ZeroParse(n);
    hide ExpandFrom, ReadTags;
    if n <= 4 {
      ZeroLiteralBytes(n, 0);
      SerializeStep(toks, [], 0);
      assert toks + [] == toks;
      assert Serialize(toks, 0) == [TagOf(toks)] + Zeros(n);
      ZeroLiteralTag(n);
      assert bytes == [n - 1 + 1, 0xb0] + ([0] + Zeros(n));
      assert |bytes| == n + 3;
      if n == 3 { assert bytes[2] == 0 && bytes[..4][2] == 0; }
    } else {
      ZeroPhraseBytes(n);
      assert bytes[..4] == [3, 0xb0, 2, 0];
    }
  }

  lemma {:induction false} ZeroLiteralBytes(n: nat, p: nat)
    requires p + n <= SB_SIZE
    ensures ValidTokens(ZeroLiterals(n), p)
    ensures BytesOf(ZeroLiterals(n), p) == Zeros(n)
    decreases n
  {
    if n != 0 {
      assert ZeroLiterals(n)[1..] == ZeroLiterals(n - 1);
      ZeroLiteralBytes(n - 1, p + 1);
      assert [0] + Zeros(n - 1) == Zeros(n);
    }
  }

  lemma {:induction false} ZeroLiteralTag(n: nat)
    ensures TagOf(ZeroLiterals(n)) == 0
    decreases n
  {
    if n != 0 {
      assert ZeroLiterals(n)[1..] == ZeroLiterals(n - 1);
      ZeroLiteralTag(n - 1);
    }
  }

  lemma ZeroPhraseBytes(n: nat)
    requires 5 <= n <= SB_SIZE && ValidTokens(ZeroParse(n), 0)
    ensures |Serialize(ZeroParse(n), 0)| == 4
    ensures Serialize(ZeroParse(n), 0)[..2] == [2, 0]
  {
    hide PhraseWord, OffsetBits;
    var a, t := Token.Literal(0), Token.Phrase(1, n - 1);
    var toks := ZeroParse(n);
    assert toks[1..] == [t] && [t][1..] == [];
    assert BytesOf([t], 1) == TokenBytes(t, 1) + [];
    assert BytesOf(toks, 0) == [0] + TokenBytes(t, 1);
    assert TagOf([t]) == 1 && TagOf(toks) == 2;
    SerializeStep(toks, [], 0);
    assert toks + [] == toks;
  }

  lemma ShortBody(toks: seq<Token>)
    requires 0 < |toks| <= 8 && ValidTokens(toks, 0)
    ensures |Serialize(toks, 0)| <= 1 + 2 * |toks|
  {
    hide BytesOf, TagOf, ValidTokens;
    EmptyForms(Span(toks));
    SerializeStep(toks, [], 0);
    assert toks + [] == toks;
  }

  /** A block of zeroes is never stored: its parse is short. */
  lemma ZeroForm(block: seq<byte>)
    requires 1 <= |block| <= SB_SIZE && AllZero(block)
    ensures IsCompressedForm(ZeroParse(|block|), Compressed(block), block)
  {
    hide IsCompressedForm, Compressed, ValidTokens, Serialize, LazyParse;
    ZeroesParse(block);
    assert 0 < |ZeroParse(|block|)| <= 4;
    var body := Body(block);
    LazyParses(block);
    ShortBody(LazyParse(block));
    CompressedEncodes(block);
  }

  /** The test on the compressed bytes is exact, but for blocks of three or four zeroes. */
  lemma ZeroTestExact(block: seq<byte>)
    requires 1 <= |block| <= SB_SIZE
    ensures LooksZero(Compressed(block)) <==> AllZero(block) && |block| != 3 && |block| != 4
  {
    hide Encodes, IsCompressedForm, LooksZero, Compressed;
    CompressedEncodes(block);
    if AllZero(block) {
      ZeroForm(block);
      ZeroBytes(|block|, Compressed(block), block);
    } else if LooksZero(Compressed(block)) {
      LooksZeroSound(Compressed(block), block);
    }
  }

  lemma EncodedBlockSize(bytes: seq<byte>, block: seq<byte>)
    requires Encodes(bytes, block)
    ensures 1 <= |block| <= SB_SIZE
  {
  }

  /** Soundness alone: nothing but zeroes passes the test. */
  lemma LooksZeroSound(bytes: seq<byte>, block: seq<byte>)
    requires Encodes(bytes, block) && LooksZero(bytes)
    ensures AllZero(block)
  {
    hide Encodes, ReadSubBlock, LooksZero;
    var cb := bytes + [0, 0];
    assert cb[0..0 + |bytes|] == bytes && cb[..|bytes|] == bytes;
    SubBlockReadsBack(bytes, block, cb, 0, [], SB_SIZE);
    LooksZeroDecodes(cb, |bytes|);
    assert [] + Fit(block, SB_SIZE) == Fit(block, SB_SIZE);
    assert 1 <= |block| <= SB_SIZE by { EncodedBlockSize(bytes, block); }
    PaddedZero(block, Fit(block, SB_SIZE));
  }

  // ----- the block loop

  /** The sub-blocks that the encoder writes of the data. */
  ghost function CompressedAll(input: seq<byte>): seq<seq<byte>> {
    if input == [] then []
    else
      var b := FirstBlock(input);
      [Compressed(b)] + CompressedAll(input[|b|..])
  }

  lemma {:induction false} AllEncoded(input: seq<byte>)
    ensures EncodesAll(CompressedAll(input), input)
    decreases |input|
  {
    hide Encodes, Compressed;
    if input != [] {
      var b := FirstBlock(input);
      CompressedEncodes(b);
      AllEncoded(input[|b|..]);
      assert ([Compressed(b)] + CompressedAll(input[|b|..]))[1..] == CompressedAll(input[|b|..]);
    }
  }

  lemma {:induction false} CompressedAppend(done: seq<byte>, block: seq<byte>)
    requires |done| % SB_SIZE == 0 && 1 <= |block| <= SB_SIZE
    ensures CompressedAll(done + block) == CompressedAll(done) + [Compressed(block)]
    decreases |done|
  {
    hide Compressed;
    if done == [] {
      assert done + block == block;
      assert FirstBlock(block) == block && block[|block|..] == [];
      assert CompressedAll(block) == [Compressed(block)] + CompressedAll([]);
    } else {
      var f := FirstBlock(done);
      assert f == done[..SB_SIZE];
      assert FirstBlock(done + block) == f;
      assert (done + block)[|f|..] == done[|f|..] + block;
      CompressedAppend(done[|f|..], block);
    }
  }

  /** All that the encoder writes takes no less than what it writes of the first blocks. */
  lemma {:induction false} PartSmaller(input: seq<byte>, p: nat)
    requires p <= |input| && p % SB_SIZE == 0
    ensures |Flatten(CompressedAll(input[..p]))| <= |Flatten(CompressedAll(input))|
    decreases |input|
  {
    hide Compressed;
    if p != 0 {
      var f := FirstBlock(input);
      assert |f| == SB_SIZE && FirstBlock(input[..p]) == f;
      assert input[..p][|f|..] == input[|f|..][..p - |f|];
      PartSmaller(input[|f|..], p - |f|);
      FlattenFirst(Compressed(f), CompressedAll(input[|f|..]));
      FlattenFirst(Compressed(f), CompressedAll(input[..p][|f|..]));
    } else {
      assert input[..0] == [];
    }
  }

  lemma FlattenFirst(b: seq<byte>, subs: seq<seq<byte>>)
    ensures Flatten([b] + subs) == b + Flatten(subs)
  {
    assert ([b] + subs)[1..] == subs;
  }

  /** Zeroes take little room, so a set of them is never given up. */
  lemma {:induction false} ZeroesFit(input: seq<byte>)
    requires AllZero(input)
    ensures |Flatten(CompressedAll(input))| <= 7 * ((|input| + SB_SIZE - 1) / SB_SIZE)
    decreases |input|
  {
    hide Compressed, ZeroParse, IsCompressedForm;
    if input != [] {
      var f := FirstBlock(input);
      assert AllZero(f) && AllZero(input[|f|..]);
      ZeroForm(f);
      ZeroBytes(|f|, Compressed(f), f);
      FlattenFirst(Compressed(f), CompressedAll(input[|f|..]));
      if |f| == SB_SIZE {
        ZeroesFit(input[|f|..]);
      } else {
        assert input[|f|..] == [];
      }
    }
  }

  lemma {:induction false} FlattenAppend(subs: seq<seq<byte>>, b: seq<byte>)
    ensures Flatten(subs + [b]) == Flatten(subs) + b
  {
    if subs == [] {
      assert subs + [b] == [b] && [b][1..] == [];
    } else {
      assert (subs + [b])[1..] == subs[1..] + [b];
      FlattenAppend(subs[1..], b);
    }
  }

  /** Any multiple of a sub-block asked of the written bytes gives the data, cut or zero-filled. */
  ghost predicate ReadsBackAs(bytes: seq<byte>, input: seq<byte>) {
    forall tail: seq<byte>, d: nat | d % SB_SIZE == 0 :: Decompress(bytes + tail, d) == Decoded(Fit(input, d))
  }

  lemma SetReadsBack(subs: seq<seq<byte>>, input: seq<byte>, bytes: seq<byte>)
    requires EncodesAll(subs, input) && Holds(bytes, 0, subs)
    ensures ReadsBackAs(bytes, input)
  {
    hide EncodesAll, Decompress, Fit, Holds;
    forall tail: seq<byte>, d: nat | d % SB_SIZE == 0
      ensures Decompress(bytes + tail, d) == Decoded(Fit(input, d))
    {
      ReadsBackWith(subs, input, bytes, tail, d);
    }
  }

  lemma ReadsBackWith(subs: seq<seq<byte>>, input: seq<byte>, bytes: seq<byte>, tail: seq<byte>, d: nat)
    requires EncodesAll(subs, input) && Holds(bytes, 0, subs) && d % SB_SIZE == 0
    ensures Decompress(bytes + tail, d) == Decoded(Fit(input, d))
  {
    hide EncodesAll, ReadFrom, Fit, Holds;
    HoldsLonger(bytes, tail, subs);
    BlockSetReadsBack(subs, input, bytes + tail, 0, [], d);
    assert [] + Fit(input, d) == Fit(input, d);
  }

  lemma HoldsLonger(bytes: seq<byte>, tail: seq<byte>, subs: seq<seq<byte>>)
    requires Holds(bytes, 0, subs)
    ensures Holds(bytes + tail, 0, subs)
  {
    var n := |Flatten(subs)|;
    assert (bytes + tail)[0..0 + n] == bytes[0..0 + n];
  }

  /** All the data before position `p` is zero, in a form that the zero test recognizes. */
  ghost predicate ZeroSoFar(input: seq<byte>, p: nat) {
    if p < |input| then AllZero(input[..p]) else SeenAsZero(input)
  }

  ghost predicate SeenAsZero(input: seq<byte>) {
    AllZero(input) && |input| % SB_SIZE != 3 && |input| % SB_SIZE != 4
  }

  lemma ZeroStep(input: seq<byte>, p: nat, bsz: nat)
    requires p < |input| && p % SB_SIZE == 0
    requires bsz == if p + SB_SIZE < |input| then SB_SIZE else |input| - p
    ensures var block := input[p..p + bsz];
            ZeroSoFar(input, p + SB_SIZE) <==> ZeroSoFar(input, p) && AllZero(block) && bsz != 3 && bsz != 4
  {
    var block := input[p..p + bsz];
    assert forall k | 0 <= k < bsz :: block[k] == input[p + k];
    assert forall k | p <= k < p + bsz :: input[k] == block[k - p];
    assert AllZero(input[..p + bsz]) <==> AllZero(input[..p]) && AllZero(block) by {
      assert input[..p + bsz] == input[..p] + block;
    }
    if p + SB_SIZE >= |input| {
      assert input[..p + bsz] == input;
      LastBlockSize(|input|, p);
    }
  }

  lemma LastBlockSize(n: nat, p: nat)
    requires p % SB_SIZE == 0 && p < n <= p + SB_SIZE
    ensures n % SB_SIZE == if n - p == SB_SIZE then 0 else n - p
  {
  }

  /** The data before position `p`, or all of it. */
  ghost function Part(input: seq<byte>, p: nat): seq<byte> {
    if p < |input| then input[..p] else input
  }

  /** What the encoder has written of the data before `p`. */
  ghost predicate SetSoFar(out: seq<byte>, compsz: nat, input: seq<byte>, p: nat) {
    && compsz <= |out| && out[..compsz] == Flatten(CompressedAll(Part(input, p)))
    && SB_SIZE * compsz <= (SB_SIZE + 2) * p
  }

  lemma SetStep(out: seq<byte>, out': seq<byte>, compsz: nat, input: seq<byte>, p: nat, sz: nat, bsz: nat)
    requires SetSoFar(out, compsz, input, p) && p < |input| && p % SB_SIZE == 0
    requires bsz == if p + SB_SIZE < |input| then SB_SIZE else |input| - p
    requires compsz + sz <= |out'| && out'[..compsz] == out[..compsz] && sz <= SB_SIZE + 2
    requires out'[compsz..compsz + sz] == Compressed(input[p..p + bsz])
    ensures SetSoFar(out', compsz + sz, input, p + SB_SIZE)
  {
    hide Compressed, CompressedAll, Flatten;
    var b := out'[compsz..compsz + sz];
    CompressedAppend(input[..p], input[p..p + bsz]);
    FlattenAppend(CompressedAll(input[..p]), b);
    assert out'[..compsz + sz] == out'[..compsz] + b;
    assert input[..p] + input[p..p + bsz] == input[..p + bsz];
    assert p + bsz == |input| ==> input[..p + bsz] == input;
  }

  /** Terminate the block with two null bytes and fill the last cluster with zeroes. */
  method Terminate(outbuf: array<byte>, compsz: nat, rounded: nat)
    requires compsz + 2 <= rounded <= outbuf.Length
    modifies outbuf
    ensures outbuf[..rounded] == old(outbuf[..compsz]) + Zeros(rounded - compsz)
  {
    forall k | compsz <= k < rounded {
      outbuf[k] := 0;
    }
    assert outbuf[..compsz] == old(outbuf[..compsz]);
  }

  lemma TerminatedHolds(bytes: seq<byte>, subs: seq<seq<byte>>, k: nat)
    requires bytes == Flatten(subs) + Zeros(k) && k >= 2
    ensures Holds(bytes, 0, subs)
  {
    assert bytes[0..0 + |Flatten(subs)|] == Flatten(subs);
  }

  lemma SetStart(out: seq<byte>, input: seq<byte>)
    ensures SetSoFar(out, 0, input, 0) && ZeroSoFar(input, 0)
  {
    assert out[..0] == [] && (|input| > 0 ==> input[..0] == []);
  }

  lemma SetDone(out: seq<byte>, compsz: nat, input: seq<byte>, p: nat)
    requires SetSoFar(out, compsz, input, p) && p >= |input|
    ensures compsz <= |out| && out[..compsz] == Flatten(CompressedAll(input)) && |Flatten(CompressedAll(input))| == compsz
    ensures ZeroSoFar(input, p) <==> SeenAsZero(input)
  {
  }

  /** The encoded data with its terminator takes all the clusters, or more. */
  ghost predicate NoneSaved(input: seq<byte>, blockSize: nat, clsz: nat) {
    input != [] && |Flatten(CompressedAll(input))| + clsz + 2 > blockSize
  }

  lemma SetTooLong(out: seq<byte>, compsz: nat, input: seq<byte>, p: nat, blockSize: nat, clsz: nat)
    requires SetSoFar(out, compsz, input, p) && p % SB_SIZE == 0 && input != [] && compsz + clsz + 2 > blockSize
    ensures NoneSaved(input, blockSize, clsz)
  {
    hide CompressedAll, Flatten;
    if p < |input| { PartSmaller(input, p); }
  }

  lemma SetSaved(input: seq<byte>, blockSize: nat, clsz: nat)
    requires input != [] ==> |Flatten(CompressedAll(input))| + clsz + 2 <= blockSize
    ensures !NoneSaved(input, blockSize, clsz)
  {
  }

  /** A hole is found whenever there is one: zeroes are not given up for want of room. */
  lemma ZeroesSaved(input: seq<byte>, blockSize: nat, clsz: nat)
    requires AllZero(input) && |input| <= blockSize && blockSize % SB_SIZE == 0
    requires 7 * (blockSize / SB_SIZE) + clsz + 2 <= blockSize
    ensures !NoneSaved(input, blockSize, clsz)
  {
    hide CompressedAll, Flatten, AllZero;
    ZeroesFit(input);
    assert (|input| + SB_SIZE - 1) / SB_SIZE <= blockSize / SB_SIZE;
  }

  /** Before each sub-block there is room for the most that the encoder may touch. */
  lemma RoomLeft(out: seq<byte>, compsz: nat, input: seq<byte>, p: nat, blockSize: nat)
    requires SetSoFar(out, compsz, input, p) && p < |input| <= blockSize
    requires p % SB_SIZE == 0 && blockSize % SB_SIZE == 0
    ensures compsz + OUT_ROOM <= blockSize + 2 * (blockSize / SB_SIZE) + 2
  {
    var q, n := p / SB_SIZE, blockSize / SB_SIZE;
    assert compsz <= (SB_SIZE + 2) * q;
    assert q + 1 <= n;
  }

  lemma Rounding(x: nat, clsz: nat, blockSize: nat)
    requires clsz > 0 && blockSize % clsz == 0 && x + clsz < blockSize
    ensures var rounded := x / clsz * clsz + clsz;
            x + 1 <= rounded <= x + clsz && rounded % clsz == 0 && rounded + clsz <= blockSize
  {
    var q, n := x / clsz, blockSize / clsz;
    DivFacts(x, clsz);
    DivFacts(blockSize, clsz);
    MulNext(q, clsz);
    MulNext(q + 1, clsz);
    MulLess(q + 1, n, clsz);
    Unpack(q + 1, 0, clsz);
  }

  lemma DivFacts(x: nat, d: nat)
    requires d > 0
    ensures x == x / d * d + x % d && x % d < d
  {
  }

  lemma MulNext(q: nat, d: nat)
    ensures (q + 1) * d == q * d + d
  {
  }

  lemma MulLess(a: nat, b: nat, d: nat)
    requires a * d < b * d
    ensures a + 1 <= b && (a + 1) * d <= b * d
  {
    assert a >= b ==> a * d >= b * d;
    assert a + 1 <= b ==> (a + 1) * d <= b * d;
  }

  lemma HoleSaved(input: seq<byte>, blockSize: nat, clsz: nat)
    requires |input| <= blockSize && blockSize % SB_SIZE == 0
    ensures SeenAsZero(input) && 7 * (blockSize / SB_SIZE) + clsz + 2 <= blockSize ==> !NoneSaved(input, blockSize, clsz)
  {
    hide NoneSaved;
    if SeenAsZero(input) && 7 * (blockSize / SB_SIZE) + clsz + 2 <= blockSize { ZeroesSaved(input, blockSize, clsz); }
  }

  lemma KeptPart(before: seq<byte>, after: seq<byte>, base: nat)
    requires Kept(before, after, base) && base <= |before|
    ensures |after| == |before| && after[..base] == before[..base]
  {
  }

  /** Compress the sub-block at `p` behind the others, unless too little would be saved. */
  method AddBlock(outbuf: array<byte>, input: seq<byte>, p: nat, compsz: nat, allzeroes: bool, limit: int)
    returns (fail: bool, sz: nat, zero: bool)
    requires p < |input| && p % SB_SIZE == 0 && compsz + OUT_ROOM <= outbuf.Length
    requires SetSoFar(outbuf[..], compsz, input, p) && (allzeroes <==> ZeroSoFar(input, p))
    modifies outbuf
    ensures fail == (compsz + sz > limit)
    ensures SetSoFar(outbuf[..], compsz + sz, input, p + SB_SIZE)
    ensures !fail ==> (zero <==> ZeroSoFar(input, p + SB_SIZE))
  {
    hide SetSoFar, Encodes, ZeroSoFar, LooksZero, AllZero, Kept, Compressed;
    var bsz := if p + SB_SIZE < |input| then SB_SIZE else |input| - p;
    ghost var was := outbuf[..];
    var block := input[p..p + bsz];
    sz := CompressBlock(block, outbuf, compsz);
    zero := allzeroes;
    var b := outbuf[compsz..compsz + sz];
    assert b == outbuf[..][compsz..compsz + sz];
    KeptPart(was, outbuf[..], compsz);
    SetStep(was, outbuf[..], compsz, input, p, sz, bsz);
    fail := compsz + sz > limit;
    if !fail {
      ZeroTestExact(block);
      ZeroStep(input, p, bsz);
      if allzeroes {
        zero := LooksZero(b);
      }
    }
  }

  /** What is written: the encoded data, two null bytes and zeroes up to a whole cluster, saving one at least. */
  ghost predicate Packed(data: seq<byte>, input: seq<byte>, blockSize: nat, clsz: nat)
    requires clsz > 0
  {
    var body := Flatten(CompressedAll(input));
    && |body| + 2 <= |data| < |body| + 2 + clsz && data == body + Zeros(|data| - |body|)
    && |data| % clsz == 0 && |data| + clsz <= blockSize
  }

  lemma PackedIntro(data: seq<byte>, input: seq<byte>, blockSize: nat, clsz: nat)
    requires var body := Flatten(CompressedAll(input));
             |body| + 2 <= |data| <= |body| + 1 + clsz && data == body + Zeros(|data| - |body|)
    requires clsz > 0 && |data| % clsz == 0 && |data| + clsz <= blockSize
    ensures Packed(data, input, blockSize, clsz)
  {
    hide Flatten, CompressedAll;
  }

  lemma PackedReadsBack(data: seq<byte>, input: seq<byte>, blockSize: nat, clsz: nat)
    requires clsz > 0 && Packed(data, input, blockSize, clsz)
    ensures ReadsBackAs(data, input)
  {
    hide CompressedAll, Flatten, ReadsBackAs, Holds, EncodesAll;
    var subs := CompressedAll(input);
    AllEncoded(input);
    TerminatedHolds(data, subs, |data| - |Flatten(subs)|);
    SetReadsBack(subs, input, data);
  }

  /** Terminate the encoded data and round it up to whole clusters. */
  method Pack(outbuf: array<byte>, compsz: nat, ghost input: seq<byte>, blockSize: nat, clsz: nat) returns (data: seq<byte>)
    requires clsz > 0 && blockSize % clsz == 0 && compsz + clsz + 2 <= blockSize <= outbuf.Length
    requires outbuf[..][..compsz] == Flatten(CompressedAll(input))
    modifies outbuf
    ensures Packed(data, input, blockSize, clsz) && ReadsBackAs(data, input)
  {
    hide ReadsBackAs, CompressedAll, Flatten, Packed;
    var rounded := (compsz + 1) / clsz * clsz + clsz;
    Rounding(compsz + 1, clsz, blockSize);
    assert outbuf[..compsz] == outbuf[..][..compsz];
    Terminate(outbuf, compsz, rounded);
    data := outbuf[..rounded];
    PackedIntro(data, input, blockSize, clsz);
    PackedReadsBack(data, input, blockSize, clsz);
  }

  /** The block loop: all sub-blocks one behind the other, or a failure as soon as no cluster would be saved. */
  method AddBlocks(outbuf: array<byte>, input: seq<byte>, blockSize: nat, clsz: nat) returns (fail: bool, compsz: nat, allzeroes: bool)
    requires |input| <= blockSize && blockSize % SB_SIZE == 0 && outbuf.Length == blockSize + 2 * (blockSize / SB_SIZE) + 2
    modifies outbuf
    ensures fail <==> NoneSaved(input, blockSize, clsz)
    ensures !fail ==> compsz <= outbuf.Length && outbuf[..][..compsz] == Flatten(CompressedAll(input))
    ensures !fail ==> (allzeroes <==> SeenAsZero(input)) && (input != [] ==> compsz + clsz + 2 <= blockSize)
  {
    hide SetSoFar, ZeroSoFar, SeenAsZero, CompressedAll, Flatten, NoneSaved;
    var p: nat := 0;
    fail, compsz, allzeroes := false, 0, true;
    SetStart(outbuf[..], input);
    while p < |input|
      invariant p % SB_SIZE == 0
      invariant SetSoFar(outbuf[..], compsz, input, p)
      invariant allzeroes <==> ZeroSoFar(input, p)
      invariant p > 0 ==> compsz + clsz + 2 <= blockSize
      decreases |input| + SB_SIZE - p
    {
      RoomLeft(outbuf[..], compsz, input, p, blockSize);
      var sz;
      fail, sz, allzeroes := AddBlock(outbuf, input, p, compsz, allzeroes, blockSize - clsz - 2);
      if fail {
        SetTooLong(outbuf[..], compsz + sz, input, p + SB_SIZE, blockSize, clsz);
        return;
      }
      compsz := compsz + sz;
      p := p + SB_SIZE;
    }
    fail := false;
    SetDone(outbuf[..], compsz, input, p);
    SetSaved(input, blockSize, clsz);
  }

  /**
   ntfs_comp_set.  The output buffer has two extra bytes per sub-block and two more, which is
   exactly enough for the overshoot of a sub-block that turns out not to compress.
   */
  method CompSet(input: seq<byte>, blockSize: nat, clusterBits: nat) returns (r: SetResult)
    requires |input| <= blockSize && blockSize % SB_SIZE == 0
    requires blockSize % Pow2(clusterBits) == 0
    ensures r == GaveUp <==> NoneSaved(input, blockSize, Pow2(clusterBits))
    ensures r != GaveUp ==> (r == NothingToWrite <==> SeenAsZero(input))
    ensures SeenAsZero(input) && 7 * (blockSize / SB_SIZE) + Pow2(clusterBits) + 2 <= blockSize ==> r == NothingToWrite
    ensures r.Write? ==> Packed(r.data, input, blockSize, Pow2(clusterBits)) && ReadsBackAs(r.data, input)
  {
    hide ReadsBackAs, SeenAsZero, CompressedAll, Flatten, Packed, NoneSaved, Pow2;
    var clsz := Pow2(clusterBits);
    HoleSaved(input, blockSize, clsz);
    var outbuf := new byte[blockSize + 2 * (blockSize / SB_SIZE) + 2](_ => 0);
    var fail, compsz, allzeroes := AddBlocks(outbuf, input, blockSize, clsz);
    if fail {
      return GaveUp;
    }
    if allzeroes {
      return NothingToWrite;
    }
    NotEmpty(input);
    var data := Pack(outbuf, compsz, input, blockSize, clsz);
    return Write(data);
  }

  lemma NotEmpty(input: seq<byte>)
    ensures !SeenAsZero(input) ==> input != []
  {
  }
}
