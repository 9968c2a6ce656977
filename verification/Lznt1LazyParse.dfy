/**
 What the LZNT1 encoder computes, told without its hash table, its chains and its output
 buffer: which earlier positions are tried at a place, which match is taken, which token
 comes next, and so the whole token list of a block.  The encoder proper is proved to
 write exactly this.
 */
module Lznt1LazyParse {
  import opened Sequences
  import opened Bytes
  import opened Lznt1Format

  const HASH_SIZE: nat := 16384
  const HASH_MULTIPLIER: nat := 0x1E35A7BD
  const MAX_SEARCH_DEPTH: nat := 24

  // ----- matches

  /** Multiplicative hash of three bytes, in 32-bit arithmetic: the high 14 bits. */
  function HashOf(b0: byte, b1: byte, b2: byte): (h: nat)
    ensures h < HASH_SIZE
  {
    var s0: int, s1: int, s2: int := b0, b1, b2;
    (s0 + 256 * s1 + 65536 * s2) * HASH_MULTIPLIER % 0x1_0000_0000 / 262144
  }

  predicate Hashable(inbuf: seq<byte>, p: nat) {
    p + 4 <= |inbuf|
  }

  function HashAt(inbuf: seq<byte>, p: nat): (h: nat)
    requires Hashable(inbuf, p)
    ensures h < HASH_SIZE
  {
    HashOf(inbuf[p], inbuf[p + 1], inbuf[p + 2])
  }

  /** Do the `len` bytes at `i` repeat those `dist` places earlier? */
  ghost predicate IsMatch(inbuf: seq<byte>, i: nat, dist: int, len: nat) {
    && 1 <= dist <= i && i + len <= |inbuf|
    && forall x | i <= x < i + len :: inbuf[x] == inbuf[x - dist]
  }

  /** How many bytes at `i` repeat those at `c`, counting from `k` and no further than `limit`. */
  ghost function Agreement(inbuf: seq<byte>, i: nat, c: nat, k: nat, limit: nat): (n: nat)
    requires c < i && k <= limit && i + limit <= |inbuf|
    ensures k <= n <= limit
    decreases limit - k
  {
    if k < limit && inbuf[c + k] == inbuf[i + k] then Agreement(inbuf, i, c, k + 1, limit) else k
  }

  lemma {:induction false} AgreementFrom(inbuf: seq<byte>, i: nat, c: nat, k: nat, limit: nat)
    requires c < i && k <= limit && i + limit <= |inbuf| && IsMatch(inbuf, i, i - c, k)
    ensures var n := Agreement(inbuf, i, c, k, limit);
            IsMatch(inbuf, i, i - c, n) && (n < limit ==> inbuf[c + n] != inbuf[i + n])
    decreases limit - k
  {
    if k < limit && inbuf[c + k] == inbuf[i + k] {
      assert inbuf[i + k] == inbuf[i + k - (i - c)];
      AgreementFrom(inbuf, i, c, k + 1, limit);
    }
  }

  /** The agreement is the length of the longest match with `c`. */
  lemma AgreementIs(inbuf: seq<byte>, i: nat, c: nat, limit: nat, n: nat)
    requires c < i && n <= limit && i + limit <= |inbuf|
    ensures n <= Agreement(inbuf, i, c, 0, limit) <==> IsMatch(inbuf, i, i - c, n)
  {
    AgreementFrom(inbuf, i, c, 0, limit);
    var m := Agreement(inbuf, i, c, 0, limit);
    if m < n {
      assert inbuf[i + m] != inbuf[i + m - (i - c)];
    }
  }

  // ----- the search at one position

  /** The newest position before `n` with hash `h`, or -1. */
  ghost function Before(inbuf: seq<byte>, h: nat, n: nat): (x: int)
    ensures -1 <= x < n
    ensures x >= 0 ==> Hashable(inbuf, x) && HashAt(inbuf, x) == h
  {
    if n == 0 then -1
    else if Hashable(inbuf, n - 1) && HashAt(inbuf, n - 1) == h then n - 1
    else Before(inbuf, h, n - 1)
  }

  /** A match: its length, and its offset as a negative number. */
  datatype Found = Found(len: nat, back: int)

  const NOTHING: Found := Found(0, 0)

  /** The first of the longest matches from `c` on, unless one of nice length ends the search. */
  ghost function Longest(inbuf: seq<byte>, i: nat, c: int, depth: nat, best: Found, limit: nat): (f: Found)
    requires c < i && i + limit <= |inbuf| && Hashable(inbuf, i) && best.len <= limit
    ensures best.len <= f.len <= limit
    decreases depth
  {
    if c < 0 || depth == 0 then best
    else
      var len := Agreement(inbuf, i, c, 0, limit);
      var older := Before(inbuf, HashAt(inbuf, i), c);
      if len <= best.len then Longest(inbuf, i, older, depth - 1, best, limit)
      else if len >= Min(NICE_MATCH_LEN, limit) then Found(len, c - i)
      else Longest(inbuf, i, older, depth - 1, Found(len, c - i), limit)
  }

  /** The match taken at `i` if it is to be longer than `bestLen` and no longer than `mxsz`. */
  ghost function BestAt(inbuf: seq<byte>, i: nat, bestLen: nat, mxsz: nat): (f: Found)
    requires i <= |inbuf|
    ensures bestLen <= f.len && (f.len > bestLen ==> f.len <= Min(|inbuf| - i, mxsz) && Hashable(inbuf, i))
  {
    var limit := Min(|inbuf| - i, mxsz);
    if limit < 4 || bestLen >= limit then Found(bestLen, 0)
    else Longest(inbuf, i, Before(inbuf, HashAt(inbuf, i), i), MAX_SEARCH_DEPTH, Found(bestLen, 0), limit)
  }

  lemma {:induction false} LongestGenuine(inbuf: seq<byte>, i: nat, c: int, depth: nat, best: Found, limit: nat)
    requires c < i && i + limit <= |inbuf| && Hashable(inbuf, i) && best.len <= limit
    ensures var f := Longest(inbuf, i, c, depth, best, limit);
            f == best || IsMatch(inbuf, i, -f.back, f.len)
    decreases depth
  {
    if c >= 0 && depth > 0 {
      var len := Agreement(inbuf, i, c, 0, limit);
      var older := Before(inbuf, HashAt(inbuf, i), c);
      AgreementIs(inbuf, i, c, limit, len);
      if len <= best.len {
        LongestGenuine(inbuf, i, older, depth - 1, best, limit);
      } else if len < Min(NICE_MATCH_LEN, limit) {
        LongestGenuine(inbuf, i, older, depth - 1, Found(len, c - i), limit);
      }
    }
  }

  /** The `k`-th position, from `c` on, with the hash of `i`. */
  ghost function Candidate(inbuf: seq<byte>, i: nat, c: int, k: nat): (x: int)
    requires c < i && Hashable(inbuf, i)
    ensures x <= c || x == -1
  {
    if k == 0 then c
    else if c < 0 then -1
    else Candidate(inbuf, i, Before(inbuf, HashAt(inbuf, i), c), k - 1)
  }

  /** Short of the nice length, no candidate within the search depth has a longer match. */
  lemma {:induction false} LongestOfAll(inbuf: seq<byte>, i: nat, c: int, depth: nat, best: Found, limit: nat, k: nat)
    requires c < i && i + limit <= |inbuf| && Hashable(inbuf, i) && best.len <= limit && k < depth
    ensures var f := Longest(inbuf, i, c, depth, best, limit);
            var x := Candidate(inbuf, i, c, k);
            x >= 0 && f.len < Min(NICE_MATCH_LEN, limit) ==> !IsMatch(inbuf, i, i - x, f.len + 1)
    decreases depth
  {
    hide IsMatch, Agreement, Before, HashAt;
    if c >= 0 {
      var len := Agreement(inbuf, i, c, 0, limit);
      var older := Before(inbuf, HashAt(inbuf, i), c);
      var f := Longest(inbuf, i, c, depth, best, limit);
      if k == 0 {
        if f.len < limit { AgreementIs(inbuf, i, c, limit, f.len + 1); }
      } else if len <= best.len {
        LongestOfAll(inbuf, i, older, depth - 1, best, limit, k - 1);
      } else if len < Min(NICE_MATCH_LEN, limit) {
        LongestOfAll(inbuf, i, older, depth - 1, Found(len, c - i), limit, k - 1);
      }
    }
  }

  /** A full-length match with the newest candidate is taken. */
  lemma FullAtOnce(inbuf: seq<byte>, i: nat, bestLen: nat, mxsz: nat)
    requires i <= |inbuf| && Hashable(inbuf, i) && 4 <= mxsz && bestLen < Min(|inbuf| - i, mxsz)
    requires var c := Before(inbuf, HashAt(inbuf, i), i);
             c >= 0 && IsMatch(inbuf, i, i - c, Min(|inbuf| - i, mxsz))
    ensures BestAt(inbuf, i, bestLen, mxsz) == Found(Min(|inbuf| - i, mxsz), Before(inbuf, HashAt(inbuf, i), i) - i)
  {
    var limit := Min(|inbuf| - i, mxsz);
    AgreementIs(inbuf, i, Before(inbuf, HashAt(inbuf, i), i), limit, limit);
  }

  // ----- the lazy choice of the next token

  /** The greatest length that can be coded once `p` bytes are out. */
  ghost function MaxLength(p: nat): (n: nat)
    requires p <= SB_SIZE
    ensures n >= NICE_MATCH_LEN
  {
    OffsetBitsRange(p);
    Pow2Values();
    Pow2Monotone(4, 16 - OffsetBits(p));
    Pow2(16 - OffsetBits(p)) + 2
  }

  /** A token, the position behind it, and the match there if it was already looked for. */
  datatype Choice = Choice(tok: Token, next: nat, ahead: Found)

  ghost predicate Within(inbuf: seq<byte>, i: nat, ahead: Found) {
    i <= |inbuf| <= SB_SIZE && (ahead.len >= 3 ==> i + ahead.len <= |inbuf|)
  }

  ghost function MatchAt(inbuf: seq<byte>, i: nat, ahead: Found): (f: Found)
    requires i < |inbuf| && Within(inbuf, i, ahead)
    ensures f.len >= 3 ==> i + f.len <= |inbuf|
  {
    if ahead.len >= 3 then ahead else BestAt(inbuf, i, 2, MaxLength(i))
  }

  /**
   A long match is taken at once; a short one unless there is a longer one at the next
   position, which is then remembered while a literal is put out; without a match, a literal.
   */
  ghost function Choose(inbuf: seq<byte>, i: nat, ahead: Found): (c: Choice)
    requires i < |inbuf| && Within(inbuf, i, ahead)
    ensures i < c.next && Within(inbuf, c.next, c.ahead) && c.next == i + Width(c.tok)
  {
    var f := MatchAt(inbuf, i, ahead);
    if f.len < 3 then Choice(Literal(inbuf[i]), i + 1, NOTHING)
    else if f.len >= NICE_MATCH_LEN then Choice(Phrase(Abs(f.back), f.len), i + f.len, NOTHING)
    else
      var g := BestAt(inbuf, i + 1, f.len, MaxLength(i + 1));
      if g.len > f.len then Choice(Literal(inbuf[i]), i + 1, g)
      else Choice(Phrase(Abs(f.back), f.len), i + f.len, NOTHING)
  }

  function Abs(x: int): nat {
    if x < 0 then -x else x
  }

  ghost function LazyFrom(inbuf: seq<byte>, i: nat, ahead: Found): seq<Token>
    requires Within(inbuf, i, ahead)
    decreases |inbuf| - i
  {
    if i == |inbuf| then []
    else
      var c := Choose(inbuf, i, ahead);
      [c.tok] + LazyFrom(inbuf, c.next, c.ahead)
  }

  lemma LazyUnfolds(inbuf: seq<byte>, i: nat, ahead: Found)
    requires Within(inbuf, i, ahead)
    ensures i == |inbuf| ==> LazyFrom(inbuf, i, ahead) == []
    ensures i < |inbuf| ==>
              var c := Choose(inbuf, i, ahead);
              LazyFrom(inbuf, i, ahead) == [c.tok] + LazyFrom(inbuf, c.next, c.ahead)
  {
    hide Choose;
  }

  /** The token list of a block. */
  ghost function LazyParse(inbuf: seq<byte>): seq<Token>
    requires |inbuf| <= SB_SIZE
  {
    LazyFrom(inbuf, 0, NOTHING)
  }

  /** A remembered match is genuine and can be coded. */
  ghost predicate Genuine(inbuf: seq<byte>, i: nat, f: Found)
    requires i <= SB_SIZE
  {
    f.len >= 3 ==> f.len <= MaxLength(i) && IsMatch(inbuf, i, -f.back, f.len)
  }

  lemma BestGenuine(inbuf: seq<byte>, i: nat, bestLen: nat)
    requires i <= |inbuf| <= SB_SIZE
    ensures var f := BestAt(inbuf, i, bestLen, MaxLength(i));
            f.len > bestLen ==> f.len <= MaxLength(i) && IsMatch(inbuf, i, -f.back, f.len)
  {
    hide MaxLength, IsMatch, Longest, Before, HashAt;
    var limit := Min(|inbuf| - i, MaxLength(i));
    if limit >= 4 && bestLen < limit {
      LongestGenuine(inbuf, i, Before(inbuf, HashAt(inbuf, i), i), MAX_SEARCH_DEPTH, Found(bestLen, 0), limit);
    }
  }

  lemma ChoiceGenuine(inbuf: seq<byte>, i: nat, ahead: Found)
    requires i < |inbuf| && Within(inbuf, i, ahead) && Genuine(inbuf, i, ahead)
    ensures var c := Choose(inbuf, i, ahead);
            && Genuine(inbuf, c.next, c.ahead)
            && (c.tok.Phrase? ==> 3 <= c.tok.len <= MaxLength(i) && IsMatch(inbuf, i, c.tok.dist, c.tok.len))
            && (c.tok.Literal? ==> c.tok.b == inbuf[i])
  {
    hide MaxLength, BestAt, IsMatch;
    BestGenuine(inbuf, i, 2);
    var f := MatchAt(inbuf, i, ahead);
    if 3 <= f.len < NICE_MATCH_LEN { BestGenuine(inbuf, i + 1, f.len); }
    assert IsMatch(inbuf, i, -f.back, f.len) ==> f.back < 0 by { MatchBack(inbuf, i, -f.back, f.len); }
  }

  lemma MatchBack(inbuf: seq<byte>, i: nat, dist: int, len: nat)
    ensures IsMatch(inbuf, i, dist, len) ==> dist >= 1
  {
  }
}
