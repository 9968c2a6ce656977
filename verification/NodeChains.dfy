/**
 Hash tables chained through the nodes themselves: a table of first nodes and one `next`
 field per allocated node.  `home` names the bucket of every node that is in the table.
 */
module NodeChains {
  import opened Sequences

  ghost predicate Threaded(next: map<int, int>, head: int, s: seq<int>) {
    && Distinct(s) && head == CellAt(s, 0)
    && forall i | 0 <= i < |s| :: 0 <= s[i] && s[i] in next && next[s[i]] == CellAt(s, i + 1)
  }

  datatype Buckets = Buckets(first: seq<int>, next: map<int, int>, chains: seq<seq<int>>, home: map<int, int>)

  /** Bucket `h` is a chain of nodes that belong there. */
  ghost predicate Fits(b: Buckets, h: int)
    requires 0 <= h < |b.first| == |b.chains|
  {
    && Threaded(b.next, b.first[h], b.chains[h])
    && forall i | 0 <= i < |b.chains[h]| :: b.chains[h][i] in b.home && b.home[b.chains[h][i]] == h
  }

  /** Node `p` is on the chain where it belongs. */
  ghost predicate Housed(b: Buckets, p: int) {
    p in b.home && 0 <= b.home[p] < |b.chains| && p in b.chains[b.home[p]]
  }

  ghost predicate Sound(b: Buckets) {
    && |b.first| == |b.chains|
    && (forall h | 0 <= h < |b.chains| :: Fits(b, h))
    && (forall p | p in b.home :: Housed(b, p))
  }

  lemma OnChain(b: Buckets, h: int, j: nat)
    requires Sound(b) && 0 <= h < |b.chains| && j < |b.chains[h]|
    ensures var p := b.chains[h][j]; 0 <= p && p in b.next && b.next[p] == CellAt(b.chains[h], j + 1) && p in b.home && b.home[p] == h
  {
    hide Housed;
    assert Fits(b, h);
  }

  lemma Heads(b: Buckets, h: int)
    requires Sound(b) && 0 <= h < |b.chains|
    ensures |b.first| == |b.chains| && b.first[h] == CellAt(b.chains[h], 0)
  {
    assert Fits(b, h);
  }

  /** Where on its chain a node stands. */
  ghost function Position(b: Buckets, p: int): (j: nat)
    requires Sound(b) && p in b.home
    ensures 0 <= b.home[p] < |b.chains| && j < |b.chains[b.home[p]]| && b.chains[b.home[p]][j] == p
    ensures p >= 0 && p in b.next
  {
    assert Housed(b, p);
    var j :| 0 <= j < |b.chains[b.home[p]]| && b.chains[b.home[p]][j] == p;
    assert Fits(b, b.home[p]);
    j
  }

  lemma Frame(next: map<int, int>, next': map<int, int>, head: int, s: seq<int>)
    requires Threaded(next, head, s)
    requires forall i | 0 <= i < |s| :: s[i] in next' && next'[s[i]] == next[s[i]]
    ensures Threaded(next', head, s)
  {
  }

  // ----- a node put at the head of its chain

  function Pushed(b: Buckets, p: int, h: int): Buckets
    requires 0 <= h < |b.first| == |b.chains|
  {
    Buckets(b.first[h := p], b.next[p := b.first[h]], b.chains[h := [p] + b.chains[h]], b.home[p := h])
  }

  lemma PushedSound(b: Buckets, p: int, h: int)
    requires Sound(b) && p !in b.home && p >= 0 && 0 <= h < |b.chains|
    ensures |b.first| == |b.chains| && Sound(Pushed(b, p, h))
  {
    hide Threaded;
    var b' := Pushed(b, p, h);
    forall g | 0 <= g < |b'.chains|
      ensures Fits(b', g)
    {
      assert Fits(b, g);
      ChainFacts(b.next, b.first[g], b.chains[g]);
      if g == h {
        PushedChain(b.next, b.first[h], b.chains[h], p);
      } else {
        Frame(b.next, b'.next, b.first[g], b.chains[g]);
      }
    }
    forall q | q in b'.home
      ensures Housed(b', q)
    {
      assert q != p ==> Housed(b, q);
      assert p in b'.chains[h];
    }
  }

  lemma PushedChain(next: map<int, int>, head: int, s: seq<int>, p: int)
    requires Threaded(next, head, s) && p !in s && p >= 0
    ensures Threaded(next[p := head], p, [p] + s)
  {
    var t, next' := [p] + s, next[p := head];
    forall i | 0 <= i < |t|
      ensures 0 <= t[i] && t[i] in next' && next'[t[i]] == CellAt(t, i + 1)
    {
      if i > 0 { assert t[i] == s[i - 1]; }
    }
  }

  // ----- a node taken out of its chain

  /** The `j`-th node of chain `h` is skipped by the link before it, or by the table. */
  function Removed(b: Buckets, h: int, j: nat): Buckets
    requires 0 <= h < |b.first| == |b.chains| && j < |b.chains[h]| && b.chains[h][j] in b.next
  {
    var c := b.chains[h];
    Buckets(if j == 0 then b.first[h := b.next[c[0]]] else b.first,
            if j == 0 then b.next else b.next[c[j - 1] := b.next[c[j]]],
            b.chains[h := RemoveAt(c, j)], b.home - {c[j]})
  }

  lemma CutChain(next: map<int, int>, head: int, s: seq<int>, k: nat)
    requires Threaded(next, head, s) && k < |s|
    ensures s[k] in next
    ensures k == 0 ==> Threaded(next, next[s[0]], RemoveAt(s, 0))
    ensures k > 0 ==> Threaded(next[s[k - 1] := next[s[k]]], head, RemoveAt(s, k))
  {
    hide Distinct, RemoveAt;
    DistinctRemove(s, k);
    var r := RemoveAt(s, k);
    var next' := if k == 0 then next else next[s[k - 1] := next[s[k]]];
    forall i | 0 <= i < |r|
      ensures 0 <= r[i] && r[i] in next' && next'[r[i]] == CellAt(r, i + 1)
    {
      CutCell(s, k, i);
      CutCell(s, k, i + 1);
    }
    CutCell(s, k, 0);
  }

  lemma CutCell(s: seq<int>, k: nat, i: nat)
    requires k < |s| && Distinct(s)
    ensures |RemoveAt(s, k)| == |s| - 1
    ensures CellAt(RemoveAt(s, k), i) == CellAt(s, if i < k then i else i + 1)
    ensures i < |s| - 1 && 0 < k && i + 1 != k ==> CellAt(RemoveAt(s, k), i) != s[k - 1]
  {
  }

  lemma RemovedSound(b: Buckets, h: int, j: nat)
    requires Sound(b) && 0 <= h < |b.chains| && j < |b.chains[h]|
    ensures |b.first| == |b.chains| && b.chains[h][j] in b.next && Sound(Removed(b, h, j))
  {
    hide Threaded, RemoveAt, Distinct;
    assert Fits(b, h);
    ChainFacts(b.next, b.first[h], b.chains[h]);
    var b', c := Removed(b, h, j), b.chains[h];
    DistinctRemove(c, j);
    CutChain(b.next, b.first[h], c, j);
    forall g | 0 <= g < |b'.chains|
      ensures Fits(b', g)
    {
      assert Fits(b, g);
      if g == h {
        assert forall i | 0 <= i < |b'.chains[h]| :: b'.chains[h][i] in RemoveAt(c, j);
      } else {
        ChainFacts(b.next, b.first[g], b.chains[g]);
        Frame(b.next, b'.next, b.first[g], b.chains[g]);
      }
    }
    forall q | q in b'.home
      ensures Housed(b', q)
    {
      assert Housed(b, q);
    }
  }

  lemma ChainFacts(next: map<int, int>, head: int, s: seq<int>)
    requires Threaded(next, head, s)
    ensures Distinct(s) && forall i | 0 <= i < |s| :: s[i] in next
  {
  }

  // ----- allocation and release of a node that is not in the table

  lemma Allocated(b: Buckets, p: int, v: int)
    requires Sound(b) && p !in b.home
    ensures Sound(b.(next := b.next[p := v]))
  {
    hide Threaded;
    var b' := b.(next := b.next[p := v]);
    forall h | 0 <= h < |b.chains|
      ensures Fits(b', h)
    {
      assert Fits(b, h);
      ChainFacts(b.next, b.first[h], b.chains[h]);
      Frame(b.next, b'.next, b.first[h], b.chains[h]);
    }
    assert forall q | q in b.home :: Housed(b, q) ==> Housed(b', q);
  }

  lemma Released(b: Buckets, p: int)
    requires Sound(b) && p !in b.home
    ensures Sound(b.(next := b.next - {p}))
  {
    hide Threaded;
    var b' := b.(next := b.next - {p});
    forall h | 0 <= h < |b.chains|
      ensures Fits(b', h)
    {
      assert Fits(b, h);
      ChainFacts(b.next, b.first[h], b.chains[h]);
      Frame(b.next, b'.next, b.first[h], b.chains[h]);
    }
    assert forall q | q in b.home :: Housed(b, q) ==> Housed(b', q);
  }

  lemma EmptySound(b: Buckets)
    requires |b.first| == |b.chains| && b.home == map[]
    requires forall h | 0 <= h < |b.chains| :: b.first[h] == NIL && b.chains[h] == []
    ensures Sound(b)
  {
  }
}
