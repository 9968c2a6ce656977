/**
 The entries of an LRU cache as linked cells: a doubly linked list from the most recent to
 the oldest entry, and a singly linked list of free entries through the same `next` cells.
 */
module LruDeck {
  import opened Sequences
  import opened LinkedLists
  import opened LruSpec

  /** The cells as they stand, and the two lists that they are meant to form. */
  datatype Deck<K, V> = Deck(next: seq<int>, previous: seq<int>, item: seq<Item<K, V>>,
                             mru: int, oldest: int, freeEntry: int, lru: seq<int>, free: seq<int>)

  ghost predicate Linked<K, V>(d: Deck<K, V>, size: nat) {
    && |d.next| == |d.item| == size
    && Ring(d.next, d.previous, d.mru, d.oldest, d.lru)
    && Chain(d.next, d.freeEntry, d.free)
  }

  /** Every entry but `x` is on exactly one of the lists, `x` on none. */
  ghost predicate Loose<K, V>(d: Deck<K, V>, size: nat, x: int) {
    && Linked(d, size) && 0 <= x < size && x !in d.lru && x !in d.free
    && (forall y | 0 <= y < size && y != x :: y in d.lru <==> y !in d.free)
    && |d.lru| + |d.free| + 1 == size
    && UniqueKeys(ItemsOf(d.item, d.lru))
  }

  /** Every entry is on exactly one of the lists, and no key is cached twice. */
  ghost predicate Sound<K, V>(d: Deck<K, V>, size: nat) {
    && Linked(d, size)
    && (forall y | 0 <= y < size :: y in d.lru <==> y !in d.free)
    && |d.lru| + |d.free| == size
    && UniqueKeys(ItemsOf(d.item, d.lru))
  }

  function ItemAt<K, V>(item: seq<Item<K, V>>, x: int): seq<Item<K, V>> {
    if 0 <= x < |item| then [item[x]] else []
  }

  /** The cached items, most recently used first. */
  function ItemsOf<K, V>(item: seq<Item<K, V>>, lru: seq<int>): (r: seq<Item<K, V>>)
    ensures Within(lru, |item|) ==> |r| == |lru| && forall i | 0 <= i < |lru| :: r[i] == item[lru[i]]
  {
    if lru == [] then [] else ItemsOf(item, lru[..|lru| - 1]) + ItemAt(item, lru[|lru| - 1])
  }

  lemma LinkedFacts<K, V>(d: Deck<K, V>, size: nat)
    requires Linked(d, size)
    ensures |d.next| == |d.previous| == |d.item| == size && Within(d.lru, size) && Within(d.free, size)
    ensures Distinct(d.lru) && Distinct(d.free)
    ensures d.mru == CellAt(d.lru, 0) && d.oldest == CellAt(d.lru, |d.lru| - 1) && d.freeEntry == CellAt(d.free, 0)
    ensures |ItemsOf(d.item, d.lru)| == |d.lru|
    ensures forall i | 0 <= i < |d.lru| :: ItemsOf(d.item, d.lru)[i] == d.item[d.lru[i]]
  {
  }

  lemma MembersApart(a: seq<int>, b: seq<int>, size: nat)
    requires Within(a, size) && Within(b, size)
    requires forall y | 0 <= y < size :: y in a <==> y !in b
    ensures forall i | 0 <= i < |a| :: a[i] !in b
    ensures forall i | 0 <= i < |b| :: b[i] !in a
  {
    forall i | 0 <= i < |a|
      ensures a[i] !in b
    {
      assert a[i] in a;
    }
  }

  // ----- taking an entry out of the list

  function Unlinked<K, V>(d: Deck<K, V>, k: nat): Deck<K, V>
    requires k < |d.lru| && |d.next| == |d.previous| && 0 <= d.lru[k] < |d.next|
    requires NIL <= d.next[d.lru[k]] < |d.next| && NIL <= d.previous[d.lru[k]] < |d.next|
  {
    var x := d.lru[k];
    d.(next := NextOut(d.next, d.previous, x), previous := PrevOut(d.next, d.previous, x),
       mru := if d.previous[x] == NIL then d.next[x] else d.mru,
       oldest := if d.next[x] == NIL then d.previous[x] else d.oldest,
       lru := RemoveAt(d.lru, k))
  }

  lemma CanUnlink<K, V>(d: Deck<K, V>, size: nat, k: nat)
    requires Linked(d, size) && k < |d.lru|
    ensures |d.next| == |d.previous| == size && 0 <= d.lru[k] < size
    ensures NIL <= d.next[d.lru[k]] < |d.next| && NIL <= d.previous[d.lru[k]] < |d.next|
    ensures d.previous[d.lru[k]] == NIL <==> k == 0
    ensures d.next[d.lru[k]] == NIL <==> k == |d.lru| - 1
    ensures d.previous[d.lru[k]] == CellAt(d.lru, k - 1) && d.next[d.lru[k]] == CellAt(d.lru, k + 1)
  {
    hide Ring, Chain;
    RingCell(d.next, d.previous, d.mru, d.oldest, d.lru, k);
    RingFacts(d.next, d.previous, d.mru, d.oldest, d.lru);
  }

  lemma ItemsCut<K, V>(item: seq<Item<K, V>>, lru: seq<int>, k: nat)
    requires k < |lru| && Within(lru, |item|)
    ensures Within(RemoveAt(lru, k), |item|)
    ensures |ItemsOf(item, lru)| == |lru| && ItemsOf(item, RemoveAt(lru, k)) == RemoveAt(ItemsOf(item, lru), k)
  {
    hide ItemsOf;
    var r := RemoveAt(lru, k);
    assert forall i | 0 <= i < |r| :: r[i] == if i < k then lru[i] else lru[i + 1];
    var a, b := ItemsOf(item, r), RemoveAt(ItemsOf(item, lru), k);
    assert |a| == |b|;
    forall i | 0 <= i < |a|
      ensures a[i] == b[i]
    {
    }
  }

  lemma UnlinkedLinked<K, V>(d: Deck<K, V>, size: nat, k: nat)
    requires Sound(d, size) && k < |d.lru|
    ensures |d.next| == |d.previous| == size && 0 <= d.lru[k] < size
    ensures NIL <= d.next[d.lru[k]] < |d.next| && NIL <= d.previous[d.lru[k]] < |d.next|
    ensures Linked(Unlinked(d, k), size)
  {
    hide Ring, Chain, Distinct, UniqueKeys;
    CanUnlink(d, size, k);
    LinkedFacts(d, size);
    RingRemove(d.next, d.previous, d.mru, d.oldest, d.lru, k);
    MembersApart(d.lru, d.free, size);
    ChainFrame(d.next, NextOut(d.next, d.previous, d.lru[k]), d.freeEntry, d.free);
  }

  lemma UnlinkedLoose<K, V>(d: Deck<K, V>, size: nat, k: nat)
    requires Sound(d, size) && k < |d.lru|
    ensures |d.next| == |d.previous| == size && 0 <= d.lru[k] < size
    ensures NIL <= d.next[d.lru[k]] < |d.next| && NIL <= d.previous[d.lru[k]] < |d.next|
    ensures Loose(Unlinked(d, k), size, d.lru[k])
    ensures |ItemsOf(d.item, d.lru)| == |d.lru| && ItemsOf(d.item, RemoveAt(d.lru, k)) == RemoveAt(ItemsOf(d.item, d.lru), k)
  {
    hide Linked, ItemsOf, UniqueKeys;
    UnlinkedLinked(d, size, k);
    LinkedFacts(d, size);
    ItemsCut(d.item, d.lru, k);
    CutUnique(ItemsOf(d.item, d.lru), k);
    DistinctRemove(d.lru, k);
    MembersApart(d.lru, d.free, size);
  }

  // ----- putting it at the top

  function Topped<K, V>(d: Deck<K, V>, x: int): Deck<K, V>
    requires |d.next| == |d.previous| && 0 <= x < |d.next| && NIL <= d.mru < |d.next|
  {
    var previous1 := d.previous[x := NIL];
    d.(next := d.next[x := d.mru], previous := if d.mru != NIL then previous1[d.mru := x] else previous1,
       mru := x, oldest := if d.oldest == NIL then x else d.oldest, lru := [x] + d.lru)
  }

  lemma ItemsPush<K, V>(item: seq<Item<K, V>>, lru: seq<int>, x: int)
    requires 0 <= x < |item| && Within(lru, |item|)
    ensures ItemsOf(item, [x] + lru) == [item[x]] + ItemsOf(item, lru)
  {
    hide ItemsOf;
    var t := [x] + lru;
    assert forall i | 0 < i < |t| :: t[i] == lru[i - 1];
    assert Within(t, |item|);
  }

  lemma ToppedSound<K, V>(d: Deck<K, V>, size: nat, x: int)
    requires Loose(d, size, x) && !HasKey(ItemsOf(d.item, d.lru), d.item[x].key)
    ensures |d.next| == |d.previous| == size && NIL <= d.mru < |d.next| && 0 <= x < size
    ensures Sound(Topped(d, x), size)
    ensures ItemsOf(d.item, [x] + d.lru) == [d.item[x]] + ItemsOf(d.item, d.lru)
  {
    hide Ring, Chain, Distinct, ItemsOf;
    LinkedFacts(d, size);
    RingPush(d.next, d.previous, d.mru, d.oldest, d.lru, x);
    ChainFrame(d.next, d.next[x := d.mru], d.freeEntry, d.free);
    ItemsPush(d.item, d.lru, x);
    var items := ItemsOf(d.item, d.lru);
    assert forall i | 0 <= i < |items| :: items[i].key != d.item[x].key;
  }

  // ----- the free list

  function Freed<K, V>(d: Deck<K, V>, x: int): Deck<K, V>
    requires 0 <= x < |d.next|
  {
    d.(next := d.next[x := d.freeEntry], freeEntry := x, free := [x] + d.free)
  }

  lemma FreedSound<K, V>(d: Deck<K, V>, size: nat, x: int)
    requires Loose(d, size, x)
    ensures |d.next| == size && 0 <= x < size && Sound(Freed(d, x), size)
  {
    hide Ring, Chain, Distinct, UniqueKeys;
    LinkedFacts(d, size);
    ChainPush(d.next, d.freeEntry, d.free, x);
    RingFrame(d.next, d.previous, d.next[x := d.freeEntry], d.previous, d.mru, d.oldest, d.lru);
  }

  function Picked<K, V>(d: Deck<K, V>): Deck<K, V>
    requires 0 <= d.freeEntry < |d.next| && d.free != []
  {
    d.(freeEntry := d.next[d.freeEntry], free := d.free[1..])
  }

  lemma PickedLoose<K, V>(d: Deck<K, V>, size: nat)
    requires Sound(d, size) && d.free != []
    ensures 0 <= d.freeEntry < |d.next| == size && d.freeEntry == d.free[0]
    ensures Loose(Picked(d), size, d.free[0])
  {
    hide Ring, Chain, UniqueKeys;
    LinkedFacts(d, size);
    ChainPop(d.next, d.freeEntry, d.free);
    assert forall y :: y in d.free <==> y == d.free[0] || y in d.free[1..];
    MembersApart(d.lru, d.free, size);
  }

  /** Only the loose entry may be given a new content. */
  lemma RefilledLoose<K, V>(d: Deck<K, V>, size: nat, x: int, item: Item<K, V>)
    requires Loose(d, size, x)
    ensures |d.item| == size && 0 <= x < size && Loose(d.(item := d.item[x := item]), size, x)
    ensures ItemsOf(d.item[x := item], d.lru) == ItemsOf(d.item, d.lru)
  {
    hide Ring, Chain, UniqueKeys;
    LinkedFacts(d, size);
    var item' := d.item[x := item];
    assert Within(d.lru, |item'|);
    forall i | 0 <= i < |d.lru|
      ensures item'[d.lru[i]] == d.item[d.lru[i]]
    {
      assert d.lru[i] in d.lru;
    }
    assert ItemsOf(item', d.lru) == ItemsOf(d.item, d.lru);
  }

  lemma FreshSound<K, V>(d: Deck<K, V>, size: nat)
    requires 0 < size == |d.next| == |d.previous| == |d.item| == |d.free| && d.lru == []
    requires forall i | 0 <= i < size :: d.free[i] == i && d.next[i] == if i + 1 < size then i + 1 else NIL
    requires d.mru == d.oldest == NIL && d.freeEntry == 0
    ensures Sound(d, size)
  {
    assert Chain(d.next, 0, d.free);
    forall y | 0 <= y < size
      ensures y in d.free
    {
      assert d.free[y] == y;
    }
  }

  // ----- the memory for the variable part runs out

  /** The links after an entry has been put at the top and then given back to the free list, with `lru` and `free` any two lists. */
  function GivenBack<K, V>(d: Deck<K, V>, x: int, lru: seq<int>, free: seq<int>): Deck<K, V>
    requires |d.next| == |d.previous| && 0 <= x < |d.next| && NIL <= d.mru < |d.next|
  {
    var t := Topped(d, x);
    t.(mru := t.next[x], next := t.next[x := t.freeEntry], freeEntry := x, lru := lru, free := free)
  }

  /**
   The recycling of an entry whose variable part could not be allocated never leaves links that
   stand for two lists, whichever: the head still points back at the entry, or `oldest` still names it.
   */
  lemma GivenBackBroken<K, V>(d: Deck<K, V>, size: nat, x: int, lru: seq<int>, free: seq<int>)
    requires Loose(d, size, x)
    ensures |d.next| == |d.previous| == size && NIL <= d.mru < |d.next| && 0 <= x < size
    ensures !Sound(GivenBack(d, x, lru, free), size)
  {
    hide ItemsOf, UniqueKeys, Distinct;
    LinkedFacts(d, size);
    var b := GivenBack(d, x, lru, free);
    assert d.lru == [] ==> b.mru == NIL && b.oldest == x;
    assert d.lru != [] ==> b.mru == d.lru[0] && b.previous[b.mru] == x;
    if Sound(b, size) {
      LinkedFacts(b, size);
      HeadFacts(b.next, b.previous, b.mru, b.oldest, b.lru);
    }
  }

  /** A list with a head has no link before it; one without has no last entry. */
  lemma HeadFacts(next: seq<int>, previous: seq<int>, first: int, last: int, s: seq<int>)
    requires Ring(next, previous, first, last, s)
    ensures first == NIL ==> last == NIL
    ensures 0 <= first < |previous| ==> previous[first] == NIL
  {
    if s != [] { RingCell(next, previous, first, last, s, 0); }
  }
}
