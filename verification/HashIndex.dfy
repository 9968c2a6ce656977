/**
 The hash index of an LRU cache: one chain of links per hash value and a list of free links,
 all threaded through the same block of link cells.  Seen from outside it is the map
 `members`, from each indexed entry to the key it is indexed under.
 */
module HashIndex {
  import opened Sequences
  import opened LinkedLists
  import opened LruSpec

  /** The links as they stand (first four fields), and the lists they are meant to form. */
  datatype Shape<K> = Shape(first: seq<int>, next: seq<int>, entry: seq<int>, free: int,
                            members: map<int, K>, chains: seq<seq<int>>, freeLinks: seq<int>, linkOf: map<int, int>)

  /** Link `l` stands on a chain for an indexed entry. */
  ghost predicate Used<K>(s: Shape<K>, l: int) {
    0 <= l < |s.entry| && s.entry[l] in s.members && s.entry[l] in s.linkOf && s.linkOf[s.entry[l]] == l
  }

  /** Every list is well linked, and a link is free exactly if it is not in use. */
  ghost predicate Lists<K>(s: Shape<K>, size: nat, maxHash: nat) {
    && |s.first| == |s.chains| == maxHash && |s.next| == |s.entry| == size
    && (forall h | 0 <= h < maxHash :: Chain(s.next, s.first[h], s.chains[h]))
    && Chain(s.next, s.free, s.freeLinks)
    && (forall l | 0 <= l < size :: l in s.freeLinks <==> !Used(s, l))
  }

  /** The entry on link `l` has a key that hashes to `h`. */
  ghost predicate Placed<K>(s: Shape<K>, hash: K -> int, l: int, h: int) {
    Used(s, l) && hash(s.members[s.entry[l]]) == h
  }

  /** The links on the chain of `h` are those of the entries whose key hashes to `h`. */
  ghost predicate Agrees<K>(s: Shape<K>, maxHash: nat, hash: K -> int)
    requires |s.chains| == maxHash
  {
    && s.linkOf.Keys == s.members.Keys
    && (forall e | e in s.members :: Linked(s, hash, e))
    && (forall h, l | 0 <= h < maxHash && l in s.chains[h] :: Placed(s, hash, l, h))
  }

  /** Entry `e` has its link on the chain where its key belongs. */
  ghost predicate Linked<K>(s: Shape<K>, hash: K -> int, e: int) {
    && e in s.members && e in s.linkOf
    && 0 <= hash(s.members[e]) < |s.chains| && s.linkOf[e] in s.chains[hash(s.members[e])]
    && 0 <= s.linkOf[e] < |s.entry| && s.entry[s.linkOf[e]] == e
  }

  ghost predicate Sound<K>(s: Shape<K>, size: nat, maxHash: nat, hash: K -> int) {
    Lists(s, size, maxHash) && Agrees(s, maxHash, hash) && |s.freeLinks| + |s.members| == size
  }

  // ----- one link at a time

  lemma OnChain<K>(s: Shape<K>, size: nat, maxHash: nat, hash: K -> int, h: int, j: nat)
    requires Sound(s, size, maxHash, hash) && 0 <= h < maxHash && j < |s.chains[h]|
    ensures var l := s.chains[h][j];
            0 <= l < size == |s.next| == |s.entry| && s.next[l] == CellAt(s.chains[h], j + 1) && Placed(s, hash, l, h)
  {
    assert s.chains[h][j] in s.chains[h];
  }

  lemma Heads<K>(s: Shape<K>, size: nat, maxHash: nat, hash: K -> int, h: int)
    requires Sound(s, size, maxHash, hash) && 0 <= h < maxHash
    ensures |s.first| == |s.chains| == maxHash && |s.next| == |s.entry| == size
    ensures s.first[h] == CellAt(s.chains[h], 0) && Chain(s.next, s.first[h], s.chains[h])
  {
  }

  lemma MemberAt<K>(s: Shape<K>, size: nat, maxHash: nat, hash: K -> int, e: int)
    requires Sound(s, size, maxHash, hash) && e in s.members
    ensures Linked(s, hash, e)
  {
  }

  /** A free link is on no chain. */
  lemma FreeOffChain<K>(s: Shape<K>, size: nat, maxHash: nat, hash: K -> int, l: int, h: int)
    requires Sound(s, size, maxHash, hash) && l in s.freeLinks && 0 <= h < maxHash
    ensures l !in s.chains[h]
  {
    assert l in s.chains[h] ==> Placed(s, hash, l, h);
    var i :| 0 <= i < |s.freeLinks| && s.freeLinks[i] == l;
  }

  // ----- inserthashindex

  /** The first free link put at the top of chain `h` for entry `e`. */
  function Inserted<K>(s: Shape<K>, e: int, key: K, h: int): Shape<K>
    requires 0 <= h < |s.first| == |s.chains| && 0 <= s.free < |s.next| == |s.entry| && s.freeLinks != []
  {
    var l := s.free;
    s.(free := s.next[l], next := s.next[l := s.first[h]], entry := s.entry[l := e], first := s.first[h := l],
       members := s.members[e := key], chains := s.chains[h := [l] + s.chains[h]],
       freeLinks := s.freeLinks[1..], linkOf := s.linkOf[e := l])
  }

  lemma FreeLink<K>(s: Shape<K>, size: nat, maxHash: nat, hash: K -> int)
    requires Sound(s, size, maxHash, hash) && |s.members| < size
    ensures s.freeLinks != [] && s.free == s.freeLinks[0] && 0 <= s.free < |s.next| == |s.entry| == size
    ensures |s.first| == |s.chains| == maxHash
  {
  }

  lemma InsertLists<K>(s: Shape<K>, size: nat, maxHash: nat, hash: K -> int, e: int, key: K, h: int)
    requires Sound(s, size, maxHash, hash) && |s.members| < size && e !in s.members && 0 <= h < maxHash
    ensures s.freeLinks != [] && 0 <= s.free < |s.next| == |s.entry| && |s.first| == |s.chains| == maxHash
    ensures Lists(Inserted(s, e, key, h), size, maxHash)
  {
    FreeLink(s, size, maxHash, hash);
    var s', l := Inserted(s, e, key, h), s.free;
    assert l in s.freeLinks;
    forall g | 0 <= g < maxHash
      ensures Chain(s'.next, s'.first[g], s'.chains[g])
    {
      FreeOffChain(s, size, maxHash, hash, l, g);
      if g == h {
        ChainPush(s.next, s.first[h], s.chains[h], l);
      } else {
        ChainFrame(s.next, s'.next, s.first[g], s.chains[g]);
      }
    }
    ChainPop(s.next, s.free, s.freeLinks);
    var t := s.freeLinks[1..];
    forall i | 0 <= i < |t|
      ensures t[i] != l && t[i] in s.freeLinks
    {
      assert t[i] == s.freeLinks[i + 1];
    }
    ChainFrame(s.next, s'.next, s'.free, t);
    forall x | 0 <= x < size
      ensures x in s'.freeLinks <==> !Used(s', x)
    {
      TailIn(s.freeLinks, x);
      assert x in s.freeLinks <==> !Used(s, x);
      if x != l { InsertUsed(s, s', e, key, h, x); }
    }
  }

  lemma TailIn(s: seq<int>, x: int)
    requires s != [] && Distinct(s)
    ensures x in s[1..] <==> x in s && x != s[0]
  {
    assert s == [s[0]] + s[1..];
    assert forall i | 0 <= i < |s[1..]| :: s[1..][i] == s[i + 1];
  }

  /** Other links are in use as before. */
  lemma InsertUsed<K>(s: Shape<K>, s': Shape<K>, e: int, key: K, h: int, x: int)
    requires 0 <= h < |s.first| == |s.chains| && 0 <= s.free < |s.next| == |s.entry| && s.freeLinks != []
    requires s' == Inserted(s, e, key, h) && e !in s.members && x != s.free && 0 <= x < |s.entry|
    ensures Used(s', x) <==> Used(s, x)
  {
  }

  lemma InsertAgrees<K>(s: Shape<K>, size: nat, maxHash: nat, hash: K -> int, e: int, key: K)
    requires Sound(s, size, maxHash, hash) && |s.members| < size && e !in s.members && 0 <= hash(key) < maxHash
    ensures s.freeLinks != [] && 0 <= s.free < |s.next| == |s.entry| && |s.first| == |s.chains| == maxHash
    ensures Agrees(Inserted(s, e, key, hash(key)), maxHash, hash)
  {
    FreeLink(s, size, maxHash, hash);
    var h := hash(key);
    var s', l := Inserted(s, e, key, h), s.free;
    assert l in s.freeLinks;
    forall x | x in s'.members
      ensures Linked(s', hash, x)
    {
      if x != e {
        MemberAt(s, size, maxHash, hash, x);
        FreeOffChain(s, size, maxHash, hash, l, hash(s.members[x]));
      }
    }
    forall g, y | 0 <= g < maxHash && y in s'.chains[g]
      ensures Placed(s', hash, y, g)
    {
      if y != l {
        assert y in s.chains[g];
        assert Placed(s, hash, y, g);
        InsertUsed(s, s', e, key, h, y);
      } else {
        FreeOffChain(s, size, maxHash, hash, l, g);
      }
    }
  }

  lemma InsertSound<K>(s: Shape<K>, size: nat, maxHash: nat, hash: K -> int, e: int, key: K)
    requires Sound(s, size, maxHash, hash) && |s.members| < size && e !in s.members && 0 <= hash(key) < maxHash
    ensures s.freeLinks != [] && 0 <= s.free < |s.next| == |s.entry| && |s.first| == |s.chains| == maxHash
    ensures Sound(Inserted(s, e, key, hash(key)), size, maxHash, hash)
  {
    hide Lists, Agrees;
    InsertLists(s, size, maxHash, hash, e, key, hash(key));
    InsertAgrees(s, size, maxHash, hash, e, key);
    assert s.members[e := key].Keys == s.members.Keys + {e};
  }

  // ----- drophashindex

  /** The `j`-th link of chain `h` taken out and given back to the free list. */
  function Dropped<K>(s: Shape<K>, e: int, h: int, j: nat): Shape<K>
    requires 0 <= h < |s.first| == |s.chains| && j < |s.chains[h]| && Within(s.chains[h], |s.next|)
  {
    var c := s.chains[h];
    var l := c[j];
    var next1 := if j > 0 then s.next[c[j - 1] := s.next[l]] else s.next;
    s.(first := if j > 0 then s.first else s.first[h := s.next[l]],
       next := next1[l := s.free], free := l,
       members := s.members - {e}, chains := s.chains[h := RemoveAt(c, j)],
       freeLinks := [l] + s.freeLinks, linkOf := s.linkOf - {e})
  }

  /** What makes a drop legitimate: `chains[h][j]` is the link of entry `e`. */
  ghost predicate LinkIs<K>(s: Shape<K>, hash: K -> int, e: int, h: int, j: nat) {
    && e in s.members && e in s.linkOf && h == hash(s.members[e])
    && 0 <= h < |s.first| == |s.chains| && j < |s.chains[h]| && Within(s.chains[h], |s.next|)
    && s.chains[h][j] == s.linkOf[e]
    && 0 <= s.linkOf[e] < |s.entry| && s.entry[s.linkOf[e]] == e
  }

  /** Two chains have no link in common. */
  lemma ChainsApart<K>(s: Shape<K>, size: nat, maxHash: nat, hash: K -> int, l: int, g: int, h: int)
    requires Sound(s, size, maxHash, hash) && 0 <= g < maxHash && 0 <= h < maxHash && g != h && l in s.chains[h]
    ensures l !in s.chains[g]
  {
    assert Placed(s, hash, l, h);
    assert l in s.chains[g] ==> Placed(s, hash, l, g);
  }

  lemma DropChains<K>(s: Shape<K>, size: nat, maxHash: nat, hash: K -> int, e: int, h: int, j: nat, g: int)
    requires Sound(s, size, maxHash, hash) && LinkIs(s, hash, e, h, j) && 0 <= g < maxHash
    ensures var s' := Dropped(s, e, h, j);
            |s'.first| == |s'.chains| == maxHash && Chain(s'.next, s'.first[g], s'.chains[g])
  {
    hide Chain, Agrees, Distinct;
    var s' := Dropped(s, e, h, j);
    var c, l := s.chains[h], s.chains[h][j];
    var next1 := if j > 0 then s.next[c[j - 1] := s.next[l]] else s.next;
    assert l in c && (j > 0 ==> c[j - 1] in c);
    Heads(s, size, maxHash, hash, h);
    Heads(s, size, maxHash, hash, g);
    if g == h {
      ChainRemove(s.next, s.first[h], c, j);
      assert Distinct(c) by { ChainDistinct(s.next, s.first[h], c); }
      DistinctRemove(c, j);
      NotIn(RemoveAt(c, j), l);
      ChainFrame(next1, s'.next, s'.first[h], RemoveAt(c, j));
    } else {
      ChainsApart(s, size, maxHash, hash, l, g, h);
      if j > 0 { ChainsApart(s, size, maxHash, hash, c[j - 1], g, h); }
      ChainDistinct(s.next, s.first[g], s.chains[g]);
      ChainFrame(s.next, s'.next, s.first[g], s.chains[g]);
    }
  }

  lemma ChainDistinct(next: seq<int>, head: int, s: seq<int>)
    requires Chain(next, head, s)
    ensures Distinct(s) && Within(s, |next|)
  {
  }

  lemma DropFree<K>(s: Shape<K>, size: nat, maxHash: nat, hash: K -> int, e: int, h: int, j: nat)
    requires Sound(s, size, maxHash, hash) && LinkIs(s, hash, e, h, j)
    ensures var s' := Dropped(s, e, h, j); Chain(s'.next, s'.free, s'.freeLinks)
  {
    hide Chain, Agrees, Distinct;
    var c, l := s.chains[h], s.chains[h][j];
    var next1 := if j > 0 then s.next[c[j - 1] := s.next[l]] else s.next;
    assert l in c && (j > 0 ==> c[j - 1] in c);
    Heads(s, size, maxHash, hash, h);
    ChainNotFree(s, size, maxHash, hash, l, h);
    if j > 0 { ChainNotFree(s, size, maxHash, hash, c[j - 1], h); }
    ChainDistinct(s.next, s.free, s.freeLinks);
    ChainFrame(s.next, next1, s.free, s.freeLinks);
    ChainPush(next1, s.free, s.freeLinks, l);
  }

  lemma ChainNotFree<K>(s: Shape<K>, size: nat, maxHash: nat, hash: K -> int, l: int, h: int)
    requires Sound(s, size, maxHash, hash) && 0 <= h < maxHash && l in s.chains[h]
    ensures l !in s.freeLinks && 0 <= l < size
  {
    assert Placed(s, hash, l, h);
  }

  lemma NotIn(s: seq<int>, l: int)
    requires l !in s
    ensures forall i | 0 <= i < |s| :: s[i] != l
  {
  }

  lemma DropUsed<K>(s: Shape<K>, hash: K -> int, e: int, h: int, j: nat, x: int)
    requires LinkIs(s, hash, e, h, j)
    ensures var s' := Dropped(s, e, h, j);
            Used(s', x) <==> Used(s, x) && x != s.chains[h][j]
  {
  }

  lemma DropSound<K>(s: Shape<K>, size: nat, maxHash: nat, hash: K -> int, e: int, h: int, j: nat)
    requires Sound(s, size, maxHash, hash) && LinkIs(s, hash, e, h, j)
    ensures Sound(Dropped(s, e, h, j), size, maxHash, hash)
  {
    hide Chain, Distinct, Used, Linked, Placed;
    var s', l := Dropped(s, e, h, j), s.chains[h][j];
    DropFree(s, size, maxHash, hash, e, h, j);
    forall g | 0 <= g < maxHash
      ensures Chain(s'.next, s'.first[g], s'.chains[g])
    {
      DropChains(s, size, maxHash, hash, e, h, j, g);
    }
    forall x | 0 <= x < size
      ensures x in s'.freeLinks <==> !Used(s', x)
    {
      DropUsed(s, hash, e, h, j, x);
      assert x in s'.freeLinks <==> x == l || x in s.freeLinks;
    }
    DropAgrees(s, size, maxHash, hash, e, h, j);
    assert s.members.Keys == s'.members.Keys + {e} && e !in s'.members.Keys;
  }

  lemma DropAgrees<K>(s: Shape<K>, size: nat, maxHash: nat, hash: K -> int, e: int, h: int, j: nat)
    requires Sound(s, size, maxHash, hash) && LinkIs(s, hash, e, h, j)
    ensures Agrees(Dropped(s, e, h, j), maxHash, hash)
  {
    hide Chain;
    var s', l := Dropped(s, e, h, j), s.chains[h][j];
    Heads(s, size, maxHash, hash, h);
    DistinctRemove(s.chains[h], j);
    forall x | x in s'.members
      ensures Linked(s', hash, x)
    {
      MemberAt(s, size, maxHash, hash, x);
      assert s.linkOf[x] != l;
    }
    forall g, y | 0 <= g < maxHash && y in s'.chains[g]
      ensures Placed(s', hash, y, g)
    {
      assert y in s.chains[g];
      assert Placed(s, hash, y, g);
      DropUsed(s, hash, e, h, j, y);
      if g != h {
        assert l in s.chains[h];
        ChainsApart(s, size, maxHash, hash, l, g, h);
      }
    }
  }

  lemma FreshSound<K>(s: Shape<K>, size: nat, maxHash: nat, hash: K -> int)
    requires size > 0 && |s.first| == |s.chains| == maxHash && |s.next| == |s.entry| == |s.freeLinks| == size
    requires forall h | 0 <= h < maxHash :: s.first[h] == NIL && s.chains[h] == []
    requires forall i | 0 <= i < size :: s.freeLinks[i] == i && s.next[i] == if i + 1 < size then i + 1 else NIL
    requires s.free == 0 && s.members == map[] && s.linkOf == map[]
    ensures Sound(s, size, maxHash, hash)
  {
    assert Chain(s.next, 0, s.freeLinks);
    forall h | 0 <= h < maxHash
      ensures Chain(s.next, s.first[h], s.chains[h])
    {
    }
    forall l | 0 <= l < size
      ensures l in s.freeLinks
    {
      assert s.freeLinks[l] == l;
    }
  }

  class Index<K(==, !new)> {
    const size: nat
    const maxHash: nat
    const hash: K -> int
    var first: seq<int>
    var next: seq<int>
    var entry: seq<int>
    var free: int
    ghost var members: map<int, K>
    ghost var chains: seq<seq<int>>
    ghost var freeLinks: seq<int>
    ghost var linkOf: map<int, int>

    ghost function Now(): Shape<K>
      reads this
    {
      Shape(first, next, entry, free, members, chains, freeLinks, linkOf)
    }

    ghost predicate Valid()
      reads this
    {
      && (forall k: K :: 0 <= hash(k) < maxHash)
      && Sound(Now(), size, maxHash, hash)
    }

    constructor (size: nat, maxHash: nat, hash: K -> int)
      requires size > 0 && forall k: K :: 0 <= hash(k) < maxHash
      ensures Valid() && members == map[]
      ensures this.size == size && this.maxHash == maxHash && this.hash == hash
    {
      this.size, this.maxHash, this.hash := size, maxHash, hash;
      first := seq(maxHash, _ => NIL);
      next := seq(size, i => if i + 1 < size then i + 1 else NIL);
      entry := seq(size, _ => NIL);
      free := 0;
      members, linkOf := map[], map[];
      chains := seq(maxHash, _ => []);
      freeLinks := seq(size, i => i);
      new;
      hide Sound;
      FreshSound(Now(), size, maxHash, hash);
    }

    /** Follow the chain of the key; the entry found is one indexed under that key. */
    method Find<V>(key: K, items: seq<Item<K, V>>) returns (e: int)
      requires Valid() && forall x | x in members :: 0 <= x < |items| && items[x].key == members[x]
      ensures e == NIL <==> forall x | x in members :: members[x] != key
      ensures e != NIL ==> e in members && members[e] == key
    {
      hide Sound, Linked, Chain, Distinct;
      ghost var s := Now();
      var h := hash(key);
      Heads(s, size, maxHash, hash, h);
      var link := first[h];
      ghost var j := 0;
      while link != NIL
        invariant 0 <= j <= |chains[h]| && link == CellAt(chains[h], j)
        invariant forall i | 0 <= i < j :: Placed(s, hash, chains[h][i], h) && members[entry[chains[h][i]]] != key
        decreases |chains[h]| - j
      {
        OnChain(s, size, maxHash, hash, h, j);
        if items[entry[link]].key == key {
          return entry[link];
        }
        link := next[link];
        j := j + 1;
      }
      if j < |chains[h]| { OnChain(s, size, maxHash, hash, h, j); }
      forall x | x in members
        ensures members[x] != key
      {
        KeyOnChain(s, size, maxHash, hash, x, h);
      }
      return NIL;
    }

    /** inserthashindex; the branches that would drop hashing are not reached. */
    method Insert(e: int, key: K)
      requires Valid() && e !in members && |members| < size
      modifies this
      ensures Valid() && members == old(members)[e := key]
    {
      hide Sound;
      ghost var s := Now();
      var h := hash(key);
      InsertSound(s, size, maxHash, hash, e, key);
      if 0 <= h < maxHash {
        var link := free;
        if link != NIL {
          free := next[link];
          next := next[link := first[h]];
          entry := entry[link := e];
          first := first[h := link];
          members, linkOf := members[e := key], linkOf[e := link];
          chains, freeLinks := chains[h := [link] + chains[h]], freeLinks[1..];
          assert Now() == Inserted(s, e, key, h);
        } else {
          assert false;
        }
      } else {
        assert false;
      }
    }

    /** The search of drophashindex: the link of entry `e` and the one before it. */
    method FindLink(e: int, h: int) returns (link: int, previous: int, ghost j: nat)
      requires Valid() && e in members && h == hash(members[e])
      ensures LinkIs(Now(), hash, e, h, j)
      ensures link == chains[h][j] && previous == CellAt(chains[h], j - 1)
    {
      hide Sound, Linked, Placed, Chain;
      ghost var s := Now();
      Heads(s, size, maxHash, hash, h);
      ghost var c, j0 := s.chains[h], LinkPosition(s, size, maxHash, hash, e);
      ChainDistinct(s.next, s.first[h], c);
      link, previous, j := first[h], NIL, 0;
      while link != NIL && entry[link] != e
        invariant 0 <= j <= j0 < |c| && link == c[j] && previous == CellAt(c, j - 1)
        decreases j0 - j
      {
        OnChain(s, size, maxHash, hash, h, j);
        previous := link;
        link := next[link];
        j := j + 1;
      }
      SameLink(s, size, maxHash, hash, e, h, j);
    }

    /** drophashindex; the branch that would drop hashing is not reached. */
    method Drop(e: int, h: int) returns (ghost j: nat)
      requires Valid() && e in members && h == hash(members[e])
      modifies this
      ensures Valid() && members == old(members) - {e}
      ensures LinkIs(old(Now()), hash, e, h, j)
      ensures chains == old(chains)[h := RemoveAt(old(chains)[h], j)] && entry == old(entry)
    {
      hide Sound, Linked, Chain, Distinct;
      ghost var s := Now();
      Heads(s, size, maxHash, hash, h);
      var link, previous;
      link, previous, j := FindLink(e, h);
      DropSound(s, size, maxHash, hash, e, h, j);
      if link != NIL {
        if previous != NIL {
          next := next[previous := next[link]];
        } else {
          first := first[h := next[link]];
        }
        next := next[link := free];
        free := link;
        members, linkOf := members - {e}, linkOf - {e};
        chains, freeLinks := chains[h := RemoveAt(chains[h], j)], [link] + freeLinks;
        assert Now() == Dropped(s, e, h, j);
      } else {
        assert false;
      }
    }
  }

  /** The link that names entry `e` is the link of `e`. */
  lemma SameLink<K>(s: Shape<K>, size: nat, maxHash: nat, hash: K -> int, e: int, h: int, j: nat)
    requires Sound(s, size, maxHash, hash) && e in s.members && h == hash(s.members[e]) && 0 <= h < maxHash
    requires j < |s.chains[h]| && 0 <= s.chains[h][j] < |s.entry| && s.entry[s.chains[h][j]] == e
    ensures LinkIs(s, hash, e, h, j)
  {
    hide Sound;
    OnChain(s, size, maxHash, hash, h, j);
    MemberAt(s, size, maxHash, hash, e);
    Heads(s, size, maxHash, hash, h);
    ChainDistinct(s.next, s.first[h], s.chains[h]);
  }

  /** The keys on the chain of `h` are all those that hash there. */
  lemma KeyOnChain<K>(s: Shape<K>, size: nat, maxHash: nat, hash: K -> int, x: int, h: int)
    requires Sound(s, size, maxHash, hash) && x in s.members && 0 <= h < maxHash && |s.chains| == maxHash
    ensures hash(s.members[x]) == h ==>
              exists i | 0 <= i < |s.chains[h]| :: 0 <= s.chains[h][i] < |s.entry| && s.entry[s.chains[h][i]] == x
  {
    hide Lists;
    assert Linked(s, hash, x);
    if hash(s.members[x]) == h {
      var i :| 0 <= i < |s.chains[h]| && s.chains[h][i] == s.linkOf[x];
    }
  }

  /** Where on its chain the link of entry `e` stands. */
  ghost function LinkPosition<K>(s: Shape<K>, size: nat, maxHash: nat, hash: K -> int, e: int): (j: nat)
    requires Sound(s, size, maxHash, hash) && e in s.members
    ensures 0 <= hash(s.members[e]) < |s.chains| && e in s.linkOf
    ensures j < |s.chains[hash(s.members[e])]| && s.chains[hash(s.members[e])][j] == s.linkOf[e]
    ensures 0 <= s.linkOf[e] < |s.entry| && s.entry[s.linkOf[e]] == e
  {
    assert Linked(s, hash, e);
    var j :| 0 <= j < |s.chains[hash(s.members[e])]| && s.chains[hash(s.members[e])][j] == s.linkOf[e];
    j
  }
}
