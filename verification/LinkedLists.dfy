/**
 Linked lists threaded through an array of cells: a pointer is an index, -1 is the null
 pointer.  A list is related to the sequence of cells that it runs through.
 */
module LinkedLists {
  import opened Sequences

  ghost predicate Within(s: seq<int>, n: nat) {
    forall i | 0 <= i < |s| :: 0 <= s[i] < n
  }

  /** A singly linked list from `head` through the cells of `s`. */
  ghost predicate Chain(next: seq<int>, head: int, s: seq<int>) {
    && Within(s, |next|) && Distinct(s)
    && head == CellAt(s, 0)
    && forall i | 0 <= i < |s| :: next[s[i]] == CellAt(s, i + 1)
  }

  /** A doubly linked list from `first` to `last` through the cells of `s`. */
  ghost predicate Ring(next: seq<int>, prev: seq<int>, first: int, last: int, s: seq<int>) {
    && |prev| == |next| && Chain(next, first, s)
    && last == CellAt(s, |s| - 1)
    && forall i | 0 <= i < |s| :: prev[s[i]] == CellAt(s, i - 1)
  }

  lemma DistinctPush(x: int, s: seq<int>)
    requires Distinct(s) && x !in s
    ensures Distinct([x] + s)
  {
  }

  /** Cells outside the list may change freely. */
  lemma ChainFrame(next: seq<int>, next': seq<int>, head: int, s: seq<int>)
    requires Chain(next, head, s) && |next'| == |next|
    requires forall i | 0 <= i < |s| :: next'[s[i]] == next[s[i]]
    ensures Chain(next', head, s)
  {
  }

  lemma PushCell(x: int, s: seq<int>, i: int)
    ensures CellAt([x] + s, i) == if i == 0 then x else if i < 0 then NIL else CellAt(s, i - 1)
  {
  }

  lemma ChainPush(next: seq<int>, head: int, s: seq<int>, x: int)
    requires Chain(next, head, s) && 0 <= x < |next| && x !in s
    ensures Chain(next[x := head], x, [x] + s)
  {
    hide Distinct;
    var next', t := next[x := head], [x] + s;
    DistinctPush(x, s);
    forall i | 0 <= i < |t|
      ensures next'[t[i]] == CellAt(t, i + 1)
    {
      PushCell(x, s, i + 1);
      if i > 0 { assert t[i] == s[i - 1] && s[i - 1] in s; }
    }
  }

  lemma ChainPop(next: seq<int>, head: int, s: seq<int>)
    requires Chain(next, head, s) && s != []
    ensures Chain(next, next[head], s[1..])
  {
    var t := s[1..];
    assert forall i | 0 <= i < |t| :: t[i] == s[i + 1];
  }

  lemma RemoveCell(s: seq<int>, k: nat, i: int)
    requires k < |s|
    ensures |RemoveAt(s, k)| == |s| - 1 && CellAt(RemoveAt(s, k), i) == CellAt(s, if i < k then i else i + 1)
  {
  }

  lemma Apart(s: seq<int>, i: nat, j: nat)
    requires Distinct(s) && i < |s| && j < |s| && i != j
    ensures s[i] != s[j]
  {
  }

  /** Taking a cell out of a singly linked list: its predecessor, or the head, skips it. */
  lemma ChainRemove(next: seq<int>, head: int, s: seq<int>, k: nat)
    requires Chain(next, head, s) && k < |s|
    ensures k == 0 ==> Chain(next, next[s[0]], RemoveAt(s, 0))
    ensures k > 0 ==> Chain(next[s[k - 1] := next[s[k]]], head, RemoveAt(s, k))
  {
    hide Distinct, RemoveAt;
    var r := RemoveAt(s, k);
    DistinctRemove(s, k);
    var next' := if k == 0 then next else next[s[k - 1] := next[s[k]]];
    RemoveCell(s, k, 0);
    forall i | 0 <= i < |r|
      ensures 0 <= r[i] < |next'| && next'[r[i]] == CellAt(r, i + 1)
    {
      RemoveCell(s, k, i);
      RemoveCell(s, k, i + 1);
      var j := if i < k then i else i + 1;
      if k > 0 && j != k - 1 { Apart(s, j, k - 1); }
    }
  }

  lemma RingFrame(next: seq<int>, prev: seq<int>, next': seq<int>, prev': seq<int>, first: int, last: int, s: seq<int>)
    requires Ring(next, prev, first, last, s) && |next'| == |next| && |prev'| == |prev|
    requires forall i | 0 <= i < |s| :: next'[s[i]] == next[s[i]] && prev'[s[i]] == prev[s[i]]
    ensures Ring(next', prev', first, last, s)
  {
  }

  /** The links after cell `s[k]` has been taken out of a doubly linked list. */
  function NextOut(next: seq<int>, prev: seq<int>, x: int): seq<int>
    requires 0 <= x < |next| == |prev| && NIL <= prev[x] < |next|
  {
    if prev[x] != NIL then next[prev[x] := next[x]] else next
  }

  function PrevOut(next: seq<int>, prev: seq<int>, x: int): seq<int>
    requires 0 <= x < |next| == |prev| && NIL <= next[x] < |next|
  {
    if next[x] != NIL then prev[next[x] := prev[x]] else prev
  }

  lemma RingCell(next: seq<int>, prev: seq<int>, first: int, last: int, s: seq<int>, k: nat)
    requires Ring(next, prev, first, last, s) && k < |s|
    ensures 0 <= s[k] < |next| == |prev|
    ensures next[s[k]] == CellAt(s, k + 1) && prev[s[k]] == CellAt(s, k - 1)
    ensures NIL <= next[s[k]] < |next| && NIL <= prev[s[k]] < |next|
    ensures prev[s[k]] == NIL <==> k == 0
    ensures next[s[k]] == NIL <==> k == |s| - 1
  {
  }

  lemma RingRemove(next: seq<int>, prev: seq<int>, first: int, last: int, s: seq<int>, k: nat)
    requires Ring(next, prev, first, last, s) && k < |s|
    ensures 0 <= s[k] < |next| == |prev| && NIL <= next[s[k]] < |next| && NIL <= prev[s[k]] < |next|
    ensures Ring(NextOut(next, prev, s[k]), PrevOut(next, prev, s[k]),
                 if k == 0 then next[s[k]] else first, if k == |s| - 1 then prev[s[k]] else last, RemoveAt(s, k))
  {
    hide Chain, Ring, RemoveAt, Distinct, Within, NextOut, PrevOut, BacksOut, CellAt;
    RingCell(next, prev, first, last, s, k);
    RingFacts(next, prev, first, last, s);
    OutLinks(next, prev, first, last, s, k);
    ChainRemove(next, first, s, k);
    BackRemove(prev, s, k, PrevOut(next, prev, s[k]));
    LastRemove(s, k);
    RingIntro(NextOut(next, prev, s[k]), PrevOut(next, prev, s[k]),
              if k == 0 then next[s[k]] else first, if k == |s| - 1 then prev[s[k]] else last, RemoveAt(s, k));
  }

  lemma OutLinks(next: seq<int>, prev: seq<int>, first: int, last: int, s: seq<int>, k: nat)
    requires Ring(next, prev, first, last, s) && k < |s|
    ensures 0 <= s[k] < |next| == |prev| && NIL <= next[s[k]] < |next| && NIL <= prev[s[k]] < |next|
    ensures |NextOut(next, prev, s[k])| == |PrevOut(next, prev, s[k])| == |next|
    ensures NextOut(next, prev, s[k]) == if k == 0 then next else next[s[k - 1] := next[s[k]]]
    ensures BacksOut(prev, s, k, PrevOut(next, prev, s[k]))
  {
    hide Chain, Ring, Distinct, Within, CellAt, NextOut, PrevOut, BacksOut;
    RingCell(next, prev, first, last, s, k);
    RingFacts(next, prev, first, last, s);
    CellAts(s, k);
    NextOutIs(next, prev, s[k]);
    PrevOutIs(next, prev, s[k]);
    BacksIntro(prev, s, k, PrevOut(next, prev, s[k]));
  }

  lemma CellAts(s: seq<int>, k: nat)
    requires k < |s|
    ensures CellAt(s, k - 1) == if k == 0 then NIL else s[k - 1]
    ensures CellAt(s, k + 1) == if k + 1 < |s| then s[k + 1] else NIL
  {
  }

  lemma NextOutIs(next: seq<int>, prev: seq<int>, x: int)
    requires 0 <= x < |next| == |prev| && NIL <= prev[x] < |next|
    ensures NextOut(next, prev, x) == (if prev[x] == NIL then next else next[prev[x] := next[x]])
    ensures |NextOut(next, prev, x)| == |next|
  {
  }

  lemma PrevOutIs(next: seq<int>, prev: seq<int>, x: int)
    requires 0 <= x < |next| == |prev| && NIL <= next[x] < |next|
    ensures PrevOut(next, prev, x) == (if next[x] == NIL then prev else prev[next[x] := prev[x]])
    ensures |PrevOut(next, prev, x)| == |prev|
  {
  }

  lemma BacksIntro(prev: seq<int>, s: seq<int>, k: nat, prev': seq<int>)
    requires k < |s| && Distinct(s) && Within(s, |prev|)
    requires forall i | 0 <= i < |s| :: 0 <= s[i] < |prev| && prev[s[i]] == CellAt(s, i - 1)
    requires prev' == if k + 1 < |s| then prev[s[k + 1] := prev[s[k]]] else prev
    ensures BacksOut(prev, s, k, prev')
  {
    hide Distinct;
  }

  lemma RingFacts(next: seq<int>, prev: seq<int>, first: int, last: int, s: seq<int>)
    requires Ring(next, prev, first, last, s)
    ensures Chain(next, first, s) && Distinct(s) && Within(s, |next|) && |prev| == |next|
    ensures last == CellAt(s, |s| - 1) && forall i | 0 <= i < |s| :: 0 <= s[i] < |prev| && prev[s[i]] == CellAt(s, i - 1)
  {
  }

  lemma RingIntro(next: seq<int>, prev: seq<int>, first: int, last: int, s: seq<int>)
    requires |prev| == |next| && Chain(next, first, s) && last == CellAt(s, |s| - 1)
    requires forall i | 0 <= i < |s| :: 0 <= s[i] < |prev| && prev[s[i]] == CellAt(s, i - 1)
    ensures Ring(next, prev, first, last, s)
  {
  }

  /** The back links of `s` after cell `s[k]` has been taken out: the cell behind it skips it. */
  ghost predicate BacksOut(prev: seq<int>, s: seq<int>, k: nat, prev': seq<int>) {
    && k < |s| && Distinct(s) && Within(s, |prev|)
    && (forall i | 0 <= i < |s| :: prev[s[i]] == CellAt(s, i - 1))
    && prev' == if k + 1 < |s| then prev[s[k + 1] := prev[s[k]]] else prev
  }

  /** The back link of one of the cells left. */
  lemma BackOfCell(prev: seq<int>, s: seq<int>, k: nat, prev': seq<int>, j: nat)
    requires BacksOut(prev, s, k, prev') && j < |s| && j != k
    ensures 0 <= s[j] < |prev'| && prev'[s[j]] == CellAt(s, if j == k + 1 then k - 1 else j - 1)
  {
    hide Distinct;
    if k + 1 < |s| && j != k + 1 { Apart(s, j, k + 1); }
  }

  lemma BackRemove(prev: seq<int>, s: seq<int>, k: nat, prev': seq<int>)
    requires BacksOut(prev, s, k, prev')
    ensures var r := RemoveAt(s, k);
            forall i | 0 <= i < |r| :: 0 <= r[i] < |prev'| && prev'[r[i]] == CellAt(r, i - 1)
  {
    hide BacksOut, RemoveAt;
    assert k < |s| by { BacksBound(prev, s, k, prev'); }
    var r := RemoveAt(s, k);
    RemoveCell(s, k, 0);
    forall i | 0 <= i < |r|
      ensures 0 <= r[i] < |prev'| && prev'[r[i]] == CellAt(r, i - 1)
    {
      RemoveCell(s, k, i);
      RemoveCell(s, k, i - 1);
      BackOfCell(prev, s, k, prev', if i < k then i else i + 1);
    }
  }

  lemma BacksBound(prev: seq<int>, s: seq<int>, k: nat, prev': seq<int>)
    requires BacksOut(prev, s, k, prev')
    ensures k < |s|
  {
  }

  /** The last cell, if the one taken out was the last. */
  lemma LastRemove(s: seq<int>, k: nat)
    requires k < |s|
    ensures var r := RemoveAt(s, k);
            CellAt(r, |r| - 1) == CellAt(s, if k == |s| - 1 then k - 1 else |s| - 1)
  {
    hide RemoveAt;
    RemoveCell(s, k, |s| - 2);
  }

  lemma RingPush(next: seq<int>, prev: seq<int>, first: int, last: int, s: seq<int>, x: int)
    requires Ring(next, prev, first, last, s) && 0 <= x < |next| && x !in s
    ensures NIL <= first < |next|
    ensures var prev' := prev[x := NIL];
            Ring(next[x := first], if first != NIL then prev'[first := x] else prev', x,
                 if s == [] then x else last, [x] + s)
  {
    var t := [x] + s;
    ChainPush(next, first, s, x);
    var prev1 := prev[x := NIL];
    var prev' := if first != NIL then prev1[first := x] else prev1;
    forall i | 0 <= i < |t|
      ensures prev'[t[i]] == CellAt(t, i - 1)
    {
      if i > 0 {
        assert t[i] == s[i - 1] && s[i - 1] in s;
        if i > 1 { assert s[i - 1] != s[0]; }
      }
    }
  }
}
