/**
 What an encoded sub-block and an encoded compression block look like, and the proof that
 ntfs_decompress reads them back.  The encoder in Lznt1Encoder is proved to produce these forms.
 */
module Lznt1RoundTrip {
  import opened Bytes
  import opened Lznt1Format
  import opened Lznt1Decoder

  /** Header of a compressed sub-block of `size` bytes, header included. */
  function CompressedHeader(size: nat): (h: seq<byte>)
    requires 3 <= size < SB_SIZE + 2
    ensures |h| == 2
  {
    [(size - 3) % 256, 0xb0 + (size - 3) / 256]
  }

  /** The uncompressed fallback: a full-size sub-block, short data padded with zeroes. */
  function StoredForm(block: seq<byte>): (s: seq<byte>)
    requires |block| <= SB_SIZE
    ensures |s| == SB_SIZE + 2
  {
    [0xff, 0x3f] + block + Zeros(SB_SIZE - |block|)
  }

  ghost predicate IsCompressedForm(toks: seq<Token>, bytes: seq<byte>, block: seq<byte>) {
    && ValidTokens(toks, 0)
    && ExpandFrom([], toks) == block
    && 4 <= |bytes| < SB_SIZE + 2
    && bytes == CompressedHeader(|bytes|) + Serialize(toks, 0)
  }

  ghost predicate Encodes(bytes: seq<byte>, block: seq<byte>) {
    && 1 <= |block| <= SB_SIZE
    && (bytes == StoredForm(block) || exists toks :: IsCompressedForm(toks, bytes, block))
  }

  /** `input` cut or zero-filled to exactly `n` bytes. */
  function Fit(input: seq<byte>, n: nat): (s: seq<byte>)
    ensures |s| == n
  {
    if |input| >= n then input[..n] else input + Zeros(n - |input|)
  }

  lemma EncodedSize(bytes: seq<byte>, block: seq<byte>)
    requires Encodes(bytes, block)
    ensures 4 <= |bytes| <= SB_SIZE + 2
  {
  }

  lemma HeaderWord(size: nat)
    requires 3 <= size < SB_SIZE + 2
    ensures Le16(CompressedHeader(size), 0) % 0x1000 == size - 3
    ensures Le16(CompressedHeader(size), 0) >= 0x8000
  {
    var h, n := CompressedHeader(size), size - 3;
    assert h[0] == n % 256 && h[1] == 0xb0 + n / 256;
    assert Le16(h, 0) == 0xb000 + n;
  }

  /** One encoded sub-block, followed by at least two more bytes, is read back whole. */
  lemma SubBlockReadsBack(bytes: seq<byte>, block: seq<byte>, cb: seq<byte>, pos: nat,
                          out: seq<byte>, destEnd: nat)
    requires Encodes(bytes, block)
    requires pos + |bytes| + 2 <= |cb| && cb[pos..pos + |bytes|] == bytes
    requires |out| + SB_SIZE <= destEnd
    ensures Le16(cb, pos) != 0
    ensures ReadSubBlock(cb, pos, out, destEnd) == At(pos + |bytes|, out + Fit(block, SB_SIZE))
  {
    EncodedSize(bytes, block);
    assert cb[pos] == bytes[0] && cb[pos + 1] == bytes[1] by {
      assert cb[pos..pos + |bytes|][0] == cb[pos] && cb[pos..pos + |bytes|][1] == cb[pos + 1];
    }
    SubSlice(cb, pos, pos + |bytes|, 2, |bytes|);
    if bytes == StoredForm(block) {
      assert Le16(cb, pos) == 0x3fff;
      assert bytes[2..] == Fit(block, SB_SIZE);
    } else {
      var toks :| IsCompressedForm(toks, bytes, block);
      CompressedReadsBack(toks, bytes, block, cb, pos, out, destEnd);
    }
  }

  lemma CompressedReadsBack(toks: seq<Token>, bytes: seq<byte>, block: seq<byte>, cb: seq<byte>, pos: nat,
                            out: seq<byte>, destEnd: nat)
    requires |block| <= SB_SIZE && IsCompressedForm(toks, bytes, block)
    requires pos + |bytes| + 2 <= |cb| && cb[pos] == bytes[0] && cb[pos + 1] == bytes[1]
    requires cb[pos + 2..pos + |bytes|] == bytes[2..]
    requires |out| + SB_SIZE <= destEnd
    ensures Le16(cb, pos) != 0
    ensures ReadSubBlock(cb, pos, out, destEnd) == At(pos + |bytes|, out + Fit(block, SB_SIZE))
  {
    hide ReadTags, ReadTokens, Serialize, ExpandFrom, ValidTokens, CompressedHeader;
    var n := |bytes|;
    var h := CompressedHeader(n);
    assert bytes[0] == h[0] && bytes[1] == h[1];
    assert Le16(cb, pos) == Le16(h, 0);
    HeaderWord(n);
    assert bytes[2..] == Serialize(toks, 0);
    ReadSerialized(toks, cb, pos + 2, pos + n, out, |out|, destEnd);
    ExpandShift(out, [], toks);
    assert out + [] == out;
    var e := ExpandFrom(out, toks, |out|);
    assert e == out + block;
    assert e + Zeros(|out| + SB_SIZE - |e|) == out + (block + Zeros(SB_SIZE - |block|));
    assert |block| == SB_SIZE ==> block[..SB_SIZE] == block && block + Zeros(0) == block;
  }

  // ----- a whole compression block

  function FirstBlock(input: seq<byte>): (b: seq<byte>)
    ensures |b| <= SB_SIZE && |b| <= |input| && (input != [] ==> b != [])
  {
    if |input| <= SB_SIZE then input else input[..SB_SIZE]
  }

  ghost predicate EncodesAll(subs: seq<seq<byte>>, input: seq<byte>)
    decreases |subs|
  {
    if subs == [] then input == []
    else && input != []
         && Encodes(subs[0], FirstBlock(input))
         && EncodesAll(subs[1..], input[|FirstBlock(input)|..])
  }

  function Flatten(subs: seq<seq<byte>>): seq<byte> {
    if subs == [] then [] else subs[0] + Flatten(subs[1..])
  }

  /** Does `cb`, from `pos` on, hold the sub-blocks and then the two-byte terminator? */
  ghost predicate Holds(cb: seq<byte>, pos: nat, subs: seq<seq<byte>>) {
    && pos + |Flatten(subs)| + 2 <= |cb|
    && cb[pos..pos + |Flatten(subs)|] == Flatten(subs)
    && cb[pos + |Flatten(subs)|] == 0 && cb[pos + |Flatten(subs)| + 1] == 0
  }

  lemma HoldsStep(cb: seq<byte>, pos: nat, subs: seq<seq<byte>>)
    requires subs != [] && Holds(cb, pos, subs)
    ensures pos + |subs[0]| + 2 <= |cb| && cb[pos..pos + |subs[0]|] == subs[0]
    ensures Holds(cb, pos + |subs[0]|, subs[1..])
  {
    SliceTwo(cb, pos, subs[0], Flatten(subs[1..]));
  }

  lemma FitStep(input: seq<byte>, n: nat)
    requires n >= SB_SIZE && input != []
    ensures Fit(FirstBlock(input), SB_SIZE) + Fit(input[|FirstBlock(input)|..], n - SB_SIZE) == Fit(input, n)
  {
    if |input| < SB_SIZE {
      assert Zeros(SB_SIZE - |input|) + Zeros(n - SB_SIZE) == Zeros(n - |input|);
    }
  }

  /**
   Reading a compression block gives the original data, cut or zero-filled to the requested
   size; the size may be any multiple of a sub-block, and what follows the terminator is free.
   */
  lemma {:induction false} BlockSetReadsBack(subs: seq<seq<byte>>, input: seq<byte>, cb: seq<byte>, pos: nat,
                                             out: seq<byte>, destEnd: nat)
    requires EncodesAll(subs, input) && Holds(cb, pos, subs)
    requires |out| <= destEnd && (destEnd - |out|) % SB_SIZE == 0
    ensures ReadFrom(cb, pos, out, destEnd) == Decoded(out + Fit(input, destEnd - |out|))
    decreases |subs|
  {
    hide ReadSubBlock, Fit, ReadFrom, Holds, Encodes;
    var n := destEnd - |out|;
    if |out| == destEnd {
      EndOfRead(cb, pos, out, destEnd, subs, input);
    } else if subs == [] {
      EndOfRead(cb, pos, out, destEnd, subs, input);
    } else {
      var b := FirstBlock(input);
      HoldsStep(cb, pos, subs);
      SubBlockReadsBack(subs[0], b, cb, pos, out, destEnd);
      var next, out' := pos + |subs[0]|, out + Fit(b, SB_SIZE);
      assert ReadFrom(cb, pos, out, destEnd) == ReadFrom(cb, next, out', destEnd) by {
        ReadStep(cb, pos, out, destEnd, next, out');
      }
      BlockSetReadsBack(subs[1..], input[|b|..], cb, next, out', destEnd);
      FitStep(input, n);
      assert out + (Fit(b, SB_SIZE) + Fit(input[|b|..], n - SB_SIZE)) == out' + Fit(input[|b|..], n - SB_SIZE);
    }
  }

  lemma ReadStep(cb: seq<byte>, pos: nat, out: seq<byte>, destEnd: nat, next: nat, out': seq<byte>)
    requires pos + 1 < |cb| && Le16(cb, pos) != 0 && |out| != destEnd
    requires ReadSubBlock(cb, pos, out, destEnd) == At(next, out')
    ensures ReadFrom(cb, pos, out, destEnd) == ReadFrom(cb, next, out', destEnd)
  {
    hide ReadSubBlock;
  }

  lemma EndOfRead(cb: seq<byte>, pos: nat, out: seq<byte>, destEnd: nat, subs: seq<seq<byte>>, input: seq<byte>)
    requires Holds(cb, pos, subs) && |out| <= destEnd
    requires |out| == destEnd || (subs == [] && input == [])
    ensures ReadFrom(cb, pos, out, destEnd) == Decoded(out + Fit(input, destEnd - |out|))
  {
    hide ReadSubBlock;
    assert out + [] == out;
    assert [] + Zeros(destEnd - |out|) == Zeros(destEnd - |out|);
  }
}
