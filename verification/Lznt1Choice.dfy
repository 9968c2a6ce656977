/**
 Which tokens the LZNT1 encoder chooses, told by the matches there are: at every position the
 longest match with a tried place, unless the next position has a longer one.
 */
module Lznt1Choice {
  import opened Sequences
  import opened Bytes
  import opened Lznt1Format
  import opened Lznt1LazyParse

  // ----- the matches that are looked at

  /** The `k`-th place that is tried at `i`: the newest positions before it with its hash, or -1. */
  ghost function Place(inbuf: seq<byte>, i: nat, k: nat): (x: int)
    requires Hashable(inbuf, i)
    ensures x < i
  {
    Candidate(inbuf, i, Before(inbuf, HashAt(inbuf, i), i), k)
  }

  /** No position between a place and the one tried before it has the hash. */
  lemma {:induction false} BeforeNewest(inbuf: seq<byte>, h: nat, n: nat, y: nat)
    requires Before(inbuf, h, n) < y < n && Hashable(inbuf, y)
    ensures HashAt(inbuf, y) != h
  {
    if y < n - 1 { BeforeNewest(inbuf, h, n - 1, y); }
  }

  lemma {:induction false} CandidateNext(inbuf: seq<byte>, i: nat, c: int, k: nat)
    requires c < i && Hashable(inbuf, i)
    ensures var x := Candidate(inbuf, i, c, k);
            Candidate(inbuf, i, c, k + 1) == if x < 0 then -1 else Before(inbuf, HashAt(inbuf, i), x)
  {
    hide Before, HashAt;
    if c >= 0 && k > 0 {
      CandidateNext(inbuf, i, Before(inbuf, HashAt(inbuf, i), c), k - 1);
    }
  }

  /** A position with the hash of `i` that is no place lies before all places, of which there are then as many as tried. */
  lemma {:induction false} PlacesAre(inbuf: seq<byte>, i: nat, y: nat, k: nat)
    requires Hashable(inbuf, i) && y < i && HashAt(inbuf, y) == HashAt(inbuf, i)
    ensures Place(inbuf, i, k) > y || exists j: nat | j <= k :: Place(inbuf, i, j) == y
  {
    hide Before, HashAt, Candidate;
    var c := Before(inbuf, HashAt(inbuf, i), i);
    if k == 0 {
      assert Place(inbuf, i, 0) == c by { FirstPlace(inbuf, i); }
      if c < y { BeforeNewest(inbuf, HashAt(inbuf, i), i, y); }
    } else {
      PlacesAre(inbuf, i, y, k - 1);
      var x := Place(inbuf, i, k - 1);
      CandidateNext(inbuf, i, c, k - 1);
      if x > y && Place(inbuf, i, k) < y { BeforeNewest(inbuf, HashAt(inbuf, i), x, y); }
    }
  }

  lemma FirstPlace(inbuf: seq<byte>, i: nat)
    requires Hashable(inbuf, i)
    ensures Place(inbuf, i, 0) == Before(inbuf, HashAt(inbuf, i), i)
  {
  }

  /** The `k`-th place repeats the next `n` bytes. */
  ghost predicate Repeats(inbuf: seq<byte>, i: nat, k: nat, n: nat)
    requires Hashable(inbuf, i)
  {
    Place(inbuf, i, k) >= 0 && IsMatch(inbuf, i, i - Place(inbuf, i, k), n)
  }

  /** A match of `n` bytes at `i` can be found and coded. */
  ghost predicate Reach(inbuf: seq<byte>, i: nat, n: nat)
    requires i <= |inbuf| <= SB_SIZE
  {
    Hashable(inbuf, i) && n <= MaxLength(i) && exists k: nat | k < 24 :: Repeats(inbuf, i, k, n)
  }

  /** The nearest of the places that repeat `n` bytes at `i`, 18 being enough, is `dist` back, and it does not repeat more. */
  ghost predicate Nearest(inbuf: seq<byte>, i: nat, dist: int, n: nat)
    requires i <= |inbuf| <= SB_SIZE
  {
    && Hashable(inbuf, i) && n <= MaxLength(i) && (n < MaxLength(i) ==> !IsMatch(inbuf, i, dist, n + 1))
    && exists k: nat | k < 24 ::
         Repeats(inbuf, i, k, n) && Place(inbuf, i, k) == i - dist && forall j: nat | j < k :: !Repeats(inbuf, i, j, Min(n, 18))
  }

  lemma MatchShorter(inbuf: seq<byte>, i: nat, dist: int, n: nat, n': nat)
    requires n' <= n
    ensures IsMatch(inbuf, i, dist, n) ==> IsMatch(inbuf, i, dist, n')
  {
  }

  lemma ReachShorter(inbuf: seq<byte>, i: nat, n: nat, n': nat)
    requires i <= |inbuf| <= SB_SIZE && n' <= n
    ensures Reach(inbuf, i, n) ==> Reach(inbuf, i, n')
  {
    hide IsMatch, Place, MaxLength;
    if Reach(inbuf, i, n) {
      var k: nat :| k < 24 && Repeats(inbuf, i, k, n);
      MatchShorter(inbuf, i, i - Place(inbuf, i, k), n, n');
      assert Repeats(inbuf, i, k, n');
    }
  }

  lemma NearestReach(inbuf: seq<byte>, i: nat, dist: int, n: nat)
    requires i <= |inbuf| <= SB_SIZE
    ensures Nearest(inbuf, i, dist, n) ==> Reach(inbuf, i, n)
  {
    hide IsMatch, Place, MaxLength;
  }

  // ----- what the search finds

  /** The search from `c` on gives the first place with the longest match, or with one of 18 bytes. */
  ghost predicate FirstOf(inbuf: seq<byte>, i: nat, c: int, depth: nat, f: Found)
    requires c < i && Hashable(inbuf, i)
  {
    exists k: nat | k < depth ::
      var x := Candidate(inbuf, i, c, k);
      && x >= 0 && x == i + f.back && IsMatch(inbuf, i, i - x, f.len)
      && forall j: nat | j < k :: !IsMatch(inbuf, i, i - Candidate(inbuf, i, c, j), Min(f.len, 18))
  }

  lemma FirstNow(inbuf: seq<byte>, i: nat, c: int, depth: nat, f: Found)
    requires 0 <= c < i && Hashable(inbuf, i) && depth > 0 && f.back == c - i && IsMatch(inbuf, i, i - c, f.len)
    ensures FirstOf(inbuf, i, c, depth, f)
  {
    hide IsMatch, Before, HashAt;
    assert Candidate(inbuf, i, c, 0) == c;
  }

  lemma FirstLater(inbuf: seq<byte>, i: nat, c: int, depth: nat, f: Found)
    requires 0 <= c < i && Hashable(inbuf, i) && depth > 0 && !IsMatch(inbuf, i, i - c, Min(f.len, 18))
    requires FirstOf(inbuf, i, Before(inbuf, HashAt(inbuf, i), c), depth - 1, f)
    ensures FirstOf(inbuf, i, c, depth, f)
  {
    hide IsMatch, Before, HashAt;
    var older := Before(inbuf, HashAt(inbuf, i), c);
    var k: nat :| k < depth - 1 && (var x := Candidate(inbuf, i, older, k);
                                    && x >= 0 && x == i + f.back && IsMatch(inbuf, i, i - x, f.len)
                                    && forall j: nat | j < k :: !IsMatch(inbuf, i, i - Candidate(inbuf, i, older, j), Min(f.len, 18)));
    assert Candidate(inbuf, i, c, k + 1) == Candidate(inbuf, i, older, k);
    forall j: nat | j < k + 1
      ensures !IsMatch(inbuf, i, i - Candidate(inbuf, i, c, j), Min(f.len, 18))
    {
      if j > 0 { assert Candidate(inbuf, i, c, j) == Candidate(inbuf, i, older, j - 1); }
    }
  }

  lemma {:induction false} LongestFirst(inbuf: seq<byte>, i: nat, c: int, depth: nat, best: Found, limit: nat)
    requires c < i && i + limit <= |inbuf| && Hashable(inbuf, i) && best.len <= limit && best.len < 18
    ensures var f := Longest(inbuf, i, c, depth, best, limit);
            f == best || (f.len > best.len && FirstOf(inbuf, i, c, depth, f) && (f.len < limit ==> !IsMatch(inbuf, i, -f.back, f.len + 1)))
    decreases depth
  {
    hide IsMatch, Agreement, Before, HashAt, FirstOf;
    if c >= 0 && depth > 0 {
      var len := Agreement(inbuf, i, c, 0, limit);
      var older := Before(inbuf, HashAt(inbuf, i), c);
      var f := Longest(inbuf, i, c, depth, best, limit);
      AgreementIs(inbuf, i, c, limit, len);
      AgreementIs(inbuf, i, c, limit, Min(f.len, 18));
      if len < limit { AgreementIs(inbuf, i, c, limit, len + 1); }
      if len <= best.len {
        LongestFirst(inbuf, i, older, depth - 1, best, limit);
        if f != best { FirstLater(inbuf, i, c, depth, f); }
      } else if len >= Min(NICE_MATCH_LEN, limit) {
        FirstNow(inbuf, i, c, depth, f);
      } else {
        LongestFirst(inbuf, i, older, depth - 1, Found(len, c - i), limit);
        if f == Found(len, c - i) { FirstNow(inbuf, i, c, depth, f); } else { FirstLater(inbuf, i, c, depth, f); }
      }
    }
  }

  lemma FirstNearest(inbuf: seq<byte>, i: nat, f: Found)
    requires i <= |inbuf| <= SB_SIZE && Hashable(inbuf, i) && f.len <= MaxLength(i)
    requires f.len < MaxLength(i) ==> !IsMatch(inbuf, i, -f.back, f.len + 1)
    requires FirstOf(inbuf, i, Before(inbuf, HashAt(inbuf, i), i), 24, f)
    ensures Nearest(inbuf, i, -f.back, f.len)
  {
    hide IsMatch, Before, HashAt, Candidate, MaxLength;
    var c := Before(inbuf, HashAt(inbuf, i), i);
    var k: nat :| k < 24 && (var x := Candidate(inbuf, i, c, k);
                             && x >= 0 && x == i + f.back && IsMatch(inbuf, i, i - x, f.len)
                             && forall j: nat | j < k :: !IsMatch(inbuf, i, i - Candidate(inbuf, i, c, j), Min(f.len, 18)));
    assert Place(inbuf, i, k) == i + f.back && Repeats(inbuf, i, k, f.len);
    forall j: nat | j < k
      ensures !Repeats(inbuf, i, j, Min(f.len, 18))
    {
      assert Place(inbuf, i, j) == Candidate(inbuf, i, c, j);
    }
  }

  lemma NoLonger(inbuf: seq<byte>, i: nat, dist: int)
    ensures !IsMatch(inbuf, i, dist, if i <= |inbuf| then |inbuf| - i + 1 else 0)
  {
  }

  /** A match longer than wanted is the nearest of its length; short of the nice length there is no longer one. */
  lemma BestIs(inbuf: seq<byte>, i: nat, bestLen: nat)
    requires i <= |inbuf| <= SB_SIZE && bestLen < 18
    ensures var f := BestAt(inbuf, i, bestLen, MaxLength(i));
            && (f.len > bestLen ==> Nearest(inbuf, i, -f.back, f.len))
            && (f.len < NICE_MATCH_LEN ==> !Reach(inbuf, i, f.len + 1))
  {
    hide IsMatch, Before, HashAt, Longest, Candidate, FirstOf, Nearest, MaxLength;
    var f, limit := BestAt(inbuf, i, bestLen, MaxLength(i)), Min(|inbuf| - i, MaxLength(i));
    if limit >= 4 && bestLen < limit {
      LongestFirst(inbuf, i, Before(inbuf, HashAt(inbuf, i), i), 24, Found(bestLen, 0), limit);
      NoLonger(inbuf, i, -f.back);
      if f.len > bestLen { FirstNearest(inbuf, i, f); }
    }
    if f.len < NICE_MATCH_LEN && Reach(inbuf, i, f.len + 1) {
      var k: nat :| k < 24 && Repeats(inbuf, i, k, f.len + 1);
      MatchFits(inbuf, i, i - Place(inbuf, i, k), f.len + 1);
      LongestOfAll(inbuf, i, Before(inbuf, HashAt(inbuf, i), i), 24, Found(bestLen, 0), limit, k);
    }
  }

  lemma MatchFits(inbuf: seq<byte>, i: nat, dist: int, n: nat)
    requires IsMatch(inbuf, i, dist, n)
    ensures i + n <= |inbuf|
  {
  }

  // ----- the choice

  /** The nearest of the longest matches at a position, as far as a match is not long enough anyway. */
  ghost predicate Peak(inbuf: seq<byte>, i: nat, dist: int, n: nat)
    requires i <= |inbuf| <= SB_SIZE
  {
    Nearest(inbuf, i, dist, n) && (n < 18 ==> !Reach(inbuf, i, n + 1))
  }

  /**
   The token at a position: a literal if there is no match of three bytes, or if the longest is shorter than 18 bytes and
   the next position has a longer one; else the nearest of the longest matches.
   */
  ghost predicate Chosen(inbuf: seq<byte>, i: nat, tok: Token)
    requires i < |inbuf| <= SB_SIZE
  {
    match tok
    case Literal(b) =>
      b == inbuf[i]
      && (!Reach(inbuf, i, 3) || exists n: nat | 3 <= n < 18 :: Reach(inbuf, i, n) && !Reach(inbuf, i, n + 1) && Reach(inbuf, i + 1, n + 1))
    case Phrase(dist, len) =>
      3 <= len && Peak(inbuf, i, dist, len) && (len < 18 ==> !Reach(inbuf, i + 1, len + 1))
  }

  /** The match remembered from the position before. */
  ghost predicate Remembered(inbuf: seq<byte>, i: nat, f: Found)
    requires i <= |inbuf| <= SB_SIZE
  {
    f.len >= 3 ==> f.back < 0 && Peak(inbuf, i, -f.back, f.len)
  }

  lemma PeakBack(inbuf: seq<byte>, i: nat, dist: int, n: nat)
    requires i <= |inbuf| <= SB_SIZE && Nearest(inbuf, i, dist, n)
    ensures dist > 0
  {
    hide IsMatch, Place;
  }

  lemma BestPeak(inbuf: seq<byte>, i: nat, bestLen: nat)
    requires i <= |inbuf| <= SB_SIZE && bestLen < 18
    ensures var f := BestAt(inbuf, i, bestLen, MaxLength(i));
            && (f.len > bestLen ==> f.back < 0 && Peak(inbuf, i, -f.back, f.len))
            && (f.len < 18 ==> !Reach(inbuf, i, f.len + 1))
  {
    hide BestAt, Nearest, Reach;
    BestIs(inbuf, i, bestLen);
    var f := BestAt(inbuf, i, bestLen, MaxLength(i));
    if f.len > bestLen { PeakBack(inbuf, i, -f.back, f.len); }
  }

  lemma ChooseChosen(inbuf: seq<byte>, i: nat, ahead: Found)
    requires i < |inbuf| && Within(inbuf, i, ahead) && Remembered(inbuf, i, ahead)
    ensures var c := Choose(inbuf, i, ahead); Chosen(inbuf, i, c.tok) && Remembered(inbuf, c.next, c.ahead)
  {
    hide BestAt, Nearest, Reach, MaxLength;
    var f := MatchAt(inbuf, i, ahead);
    BestPeak(inbuf, i, 2);
    if 3 <= f.len < 18 {
      NearestReach(inbuf, i, -f.back, f.len);
      BestPeak(inbuf, i + 1, f.len);
      var g := BestAt(inbuf, i + 1, f.len, MaxLength(i + 1));
      if g.len > f.len {
        NearestReach(inbuf, i + 1, -g.back, g.len);
        ReachShorter(inbuf, i + 1, g.len, f.len + 1);
      }
    }
  }

  /** Every token of a list is the one chosen at its position. */
  ghost predicate AllChosen(inbuf: seq<byte>, i: nat, toks: seq<Token>)
    requires i <= |inbuf| <= SB_SIZE
    decreases |toks|
  {
    if toks == [] then i == |inbuf|
    else i < |inbuf| && Chosen(inbuf, i, toks[0]) && i + Width(toks[0]) <= |inbuf| && AllChosen(inbuf, i + Width(toks[0]), toks[1..])
  }

  lemma {:induction false} LazyChosen(inbuf: seq<byte>, i: nat, ahead: Found)
    requires Within(inbuf, i, ahead) && Remembered(inbuf, i, ahead)
    ensures AllChosen(inbuf, i, LazyFrom(inbuf, i, ahead))
    decreases |inbuf| - i
  {
    hide Choose, Chosen, Remembered;
    if i < |inbuf| {
      var c := Choose(inbuf, i, ahead);
      ChooseChosen(inbuf, i, ahead);
      LazyChosen(inbuf, c.next, c.ahead);
    }
  }

  // ----- only one token can be chosen

  lemma NearestUnique(inbuf: seq<byte>, i: nat, dist: int, n: nat, dist': int, n': nat)
    requires i <= |inbuf| <= SB_SIZE && Nearest(inbuf, i, dist, n) && Nearest(inbuf, i, dist', n') && Min(n, 18) == Min(n', 18)
    ensures dist == dist' && n == n'
  {
    hide IsMatch, Place, MaxLength;
    var k: nat :| k < 24 && Repeats(inbuf, i, k, n) && Place(inbuf, i, k) == i - dist && forall j: nat | j < k :: !Repeats(inbuf, i, j, Min(n, 18));
    var l: nat :| l < 24 && Repeats(inbuf, i, l, n') && Place(inbuf, i, l) == i - dist' && forall j: nat | j < l :: !Repeats(inbuf, i, j, Min(n', 18));
    MatchShorter(inbuf, i, dist, n, Min(n, 18));
    MatchShorter(inbuf, i, dist', n', Min(n', 18));
    assert Repeats(inbuf, i, k, Min(n, 18)) && Repeats(inbuf, i, l, Min(n', 18));
    assert k == l;
    if n < n' { MatchShorter(inbuf, i, dist, n', n + 1); }
    if n' < n { MatchShorter(inbuf, i, dist, n, n' + 1); }
  }

  lemma PeakUnique(inbuf: seq<byte>, i: nat, dist: int, n: nat, dist': int, n': nat)
    requires i <= |inbuf| <= SB_SIZE && Peak(inbuf, i, dist, n) && Peak(inbuf, i, dist', n')
    ensures dist == dist' && n == n'
  {
    hide Nearest, Reach;
    NearestReach(inbuf, i, dist, n);
    NearestReach(inbuf, i, dist', n');
    if n < n' { ReachShorter(inbuf, i, n', n + 1); }
    if n' < n { ReachShorter(inbuf, i, n, n' + 1); }
    NearestUnique(inbuf, i, dist, n, dist', n');
  }

  lemma PhraseUnique(inbuf: seq<byte>, i: nat, b: byte, dist: nat, n: nat)
    requires i < |inbuf| <= SB_SIZE && Chosen(inbuf, i, Phrase(dist, n))
    ensures !Chosen(inbuf, i, Literal(b))
  {
    hide Nearest, Reach;
    NearestReach(inbuf, i, dist, n);
    ReachShorter(inbuf, i, n, 3);
    forall m: nat | 3 <= m < 18 && Reach(inbuf, i, m) && !Reach(inbuf, i, m + 1)
      ensures m == n
    {
      if n < m { ReachShorter(inbuf, i, m, n + 1); }
      if m < n { ReachShorter(inbuf, i, n, m + 1); }
    }
  }

  lemma ChosenUnique(inbuf: seq<byte>, i: nat, t: Token, t': Token)
    requires i < |inbuf| <= SB_SIZE && Chosen(inbuf, i, t) && Chosen(inbuf, i, t')
    ensures t == t'
  {
    hide Nearest, Reach;
    match t
    case Literal(b) =>
      if t'.Phrase? { PhraseUnique(inbuf, i, b, t'.dist, t'.len); }
    case Phrase(dist, len) =>
      if t'.Literal? { PhraseUnique(inbuf, i, t'.b, dist, len); } else { PeakUnique(inbuf, i, dist, len, t'.dist, t'.len); }
  }

  lemma {:induction false} AllUnique(inbuf: seq<byte>, i: nat, s: seq<Token>, t: seq<Token>)
    requires i <= |inbuf| <= SB_SIZE && AllChosen(inbuf, i, s) && AllChosen(inbuf, i, t)
    ensures s == t
    decreases |s|
  {
    hide Chosen;
    if s != [] && t != [] {
      ChosenUnique(inbuf, i, s[0], t[0]);
      AllUnique(inbuf, i + Width(s[0]), s[1..], t[1..]);
      assert s == [s[0]] + s[1..] && t == [t[0]] + t[1..];
    }
  }

  /** The tokens of a block are the chosen ones, and no other list is. */
  lemma ParseChosen(inbuf: seq<byte>, toks: seq<Token>)
    requires |inbuf| <= SB_SIZE
    ensures toks == LazyParse(inbuf) <==> AllChosen(inbuf, 0, toks)
  {
    LazyChosen(inbuf, 0, NOTHING);
    if AllChosen(inbuf, 0, toks) { AllUnique(inbuf, 0, toks, LazyParse(inbuf)); }
  }
}
