/**
 The hash-chain match finder of the LZNT1 encoder: `head` maps a hash to the newest position
 with that hash, `prev` maps a position to the one before it on the same chain.
 */
module Lznt1MatchFinder {
  import opened Sequences
  import opened Bytes
  import opened Lznt1Format
  import opened Lznt1LazyParse

  class CompressContext {
    const inbuf: seq<byte>
    var size: nat
    var rel: int
    var mxsz: nat
    const head: array<int>
    const prev: array<int>

    ghost predicate Chains(n: nat)
      reads head, prev
    {
      && |inbuf| <= SB_SIZE && head.Length == HASH_SIZE && prev.Length == SB_SIZE && head != prev
      && ChainsHold(head[..], prev[..], n)
    }

    /**
     The chains after positions 0..n have been offered: `head[h]` is the newest position of
     hash h, and `prev[p]` the newest one before p with the hash of p.  So positions strictly
     decrease along a chain, which holds every earlier position of its hash and no other.
     */
    ghost predicate ChainsHold(head: seq<int>, prev: seq<int>, n: nat)
      requires |inbuf| <= SB_SIZE && |head| == HASH_SIZE && |prev| == SB_SIZE
    {
      && (forall h | 0 <= h < HASH_SIZE :: head[h] == Before(inbuf, h, n))
      && (forall p: nat | p < n && Hashable(inbuf, p) :: prev[p] == Before(inbuf, HashAt(inbuf, p), p))
    }

    lemma InsertKeeps(head: seq<int>, prev: seq<int>, i: nat)
      requires |inbuf| <= SB_SIZE && |head| == HASH_SIZE && |prev| == SB_SIZE
      requires ChainsHold(head, prev, i) && Hashable(inbuf, i)
      ensures head[HashAt(inbuf, i)] == Before(inbuf, HashAt(inbuf, i), i)
      ensures ChainsHold(head[HashAt(inbuf, i) := i], prev[i := head[HashAt(inbuf, i)]], i + 1)
    {
      hide HashAt;
    }

    lemma SkipKeeps(head: seq<int>, prev: seq<int>, i: nat)
      requires |inbuf| <= SB_SIZE && |head| == HASH_SIZE && |prev| == SB_SIZE
      requires ChainsHold(head, prev, i) && !Hashable(inbuf, i)
      ensures ChainsHold(head, prev, i + 1)
    {
      hide HashAt;
    }

    constructor (inbuf: seq<byte>)
      requires |inbuf| <= SB_SIZE
      ensures this.inbuf == inbuf && Chains(0) && fresh(head) && fresh(prev)
      ensures size == 0
    {
      this.inbuf := inbuf;
      size, rel, mxsz := 0, 0, 0;
      head := new int[HASH_SIZE](_ => -1);
      prev := new int[SB_SIZE](_ => 0);
      new;
      assert forall h | 0 <= h < HASH_SIZE :: head[..][h] == -1;
    }

    /** Insert position `i` at the front of its chain. */
    method Insert(i: nat) returns (next: int)
      requires Chains(i) && Hashable(inbuf, i)
      modifies head, prev
      ensures Chains(i + 1)
      ensures next == Before(inbuf, HashAt(inbuf, i), i)
    {
      hide ChainsHold, Before, HashAt;
      var h := HashAt(inbuf, i);
      InsertKeeps(head[..], prev[..], i);
      next := head[h];
      prev[i] := next;
      head[h] := i;
      assert prev[..] == old(prev[..])[i := next] && head[..] == old(head[..])[h := i];
    }

    /** ntfs_skip_position: advance without searching. */
    method SkipPosition(i: nat)
      requires Chains(i)
      modifies head, prev
      ensures Chains(i + 1)
    {
      hide ChainsHold;
      if |inbuf| - i < 4 {
        SkipKeeps(head[..], prev[..], i);
        return;
      }
      var _ := Insert(i);
    }

    method SkipTo(i: nat, j: nat)
      requires Chains(i) && i <= j
      modifies head, prev
      ensures Chains(j)
    {
      var k := i;
      while k != j
        invariant i <= k <= j && Chains(k)
        decreases j - k
      {
        SkipPosition(k);
        k := k + 1;
      }
    }

    /** Do the bytes at `cur` agree with those at `i` up to and including index `len`? */
    method AgreesBeyond(i: nat, cur: nat, len: nat) returns (yes: bool)
      requires cur < i && i + len < |inbuf| && len >= 2
      ensures yes == IsMatch(inbuf, i, i - cur, len + 1)
    {
      if inbuf[cur + len] != inbuf[i + len] || inbuf[cur + (len - 1)] != inbuf[i + (len - 1)]
         || inbuf[cur] != inbuf[i] {
        return false;
      }
      var n := 1;
      while n < len - 1
        invariant 1 <= n <= len - 1
        invariant IsMatch(inbuf, i, i - cur, n)
      {
        if inbuf[cur + n] != inbuf[i + n] {
          return false;
        }
        n := n + 1;
      }
      return true;
    }

    /** Extend an agreement of `len + 1` bytes as far as the search wants it. */
    method Extend(i: nat, cur: nat, len: nat, niceLen: nat, maxLen: nat) returns (best: nat, stop: bool)
      requires cur < i && i + maxLen <= |inbuf| && len < niceLen <= maxLen
      requires IsMatch(inbuf, i, i - cur, len + 1)
      ensures len < best <= maxLen && (stop <==> best >= niceLen)
      ensures best == Agreement(inbuf, i, cur, 0, maxLen)
    {
      best := len + 1;
      while best < niceLen && inbuf[cur + best] == inbuf[i + best]
        invariant len < best <= niceLen
        invariant IsMatch(inbuf, i, i - cur, best)
      {
        best := best + 1;
      }
      stop := best >= niceLen;
      if stop {
        while best < maxLen && inbuf[cur + best] == inbuf[i + best]
          invariant len < best <= maxLen
          invariant IsMatch(inbuf, i, i - cur, best)
        {
          best := best + 1;
        }
      }
      AgreementIs(inbuf, i, cur, maxLen, best);
      if best < maxLen { AgreementIs(inbuf, i, cur, maxLen, best + 1); }
    }

    /** Walk the chain from `first`, keeping the longest match found. */
    method Search(i: nat, first: int, bestLen: nat, maxLen: nat) returns (len: nat, back: int)
      requires Chains(i + 1) && Hashable(inbuf, i) && first == Before(inbuf, HashAt(inbuf, i), i)
      requires 2 <= bestLen < NICE_MATCH_LEN && bestLen < maxLen && i + maxLen <= |inbuf|
      ensures Found(len, back) == Longest(inbuf, i, first, MAX_SEARCH_DEPTH, Found(bestLen, 0), maxLen)
    {
      hide IsMatch, HashAt, Before, Agreement;
      len, back := bestLen, 0;
      var niceLen := Min(NICE_MATCH_LEN, maxLen);
      var depth, cur := MAX_SEARCH_DEPTH, first;
      while cur >= 0 && depth > 0
        invariant -1 <= cur < i && (cur >= 0 ==> Hashable(inbuf, cur) && HashAt(inbuf, cur) == HashAt(inbuf, i))
        invariant bestLen <= len < niceLen && 0 <= depth
        invariant Longest(inbuf, i, cur, depth, Found(len, back), maxLen)
               == Longest(inbuf, i, first, MAX_SEARCH_DEPTH, Found(bestLen, 0), maxLen)
        decreases depth
      {
        depth := depth - 1;
        var longer := AgreesBeyond(i, cur, len);
        AgreementIs(inbuf, i, cur, maxLen, len + 1);
        if longer {
          var best, stop := Extend(i, cur, len, niceLen, maxLen);
          len, back := best, cur - i;
          if stop {
            return;
          }
        }
        assert prev[..][cur] == Before(inbuf, HashAt(inbuf, i), cur);
        cur := prev[cur];
      }
    }

    /** ntfs_best_match */
    method BestMatch(i: nat, bestLen: nat)
      requires Chains(i) && i < |inbuf| && mxsz >= NICE_MATCH_LEN
      requires 2 <= bestLen < NICE_MATCH_LEN
      modifies this`size, this`rel, head, prev
      ensures Chains(i + 1)
      ensures Found(size, rel) == BestAt(inbuf, i, bestLen, mxsz)
    {
      hide IsMatch, HashAt, Before, ChainsHold, Longest;
      var maxLen := Min(|inbuf| - i, mxsz);
      var len, back := bestLen, 0;
      if maxLen >= 4 {
        var first := Insert(i);
        if bestLen < maxLen {
          len, back := Search(i, first, bestLen, maxLen);
        }
      } else {
        SkipKeeps(head[..], prev[..], i);
      }
      size, rel := len, back;
    }
  }
}
