/**
 The LRU cache: entries in order of use, a free list, and a hash index when there is one.
 Every operation is stated on `Items()`, the cached items from the most recent to the
 oldest, so that a cache with an index and one without are held to the same behaviour.
 */
module LruCache {
  import opened Sequences
  import opened LinkedLists
  import opened LruSpec
  import opened LruDeck
  import HashIndex

  /** What the index has to hold for the entries in use. */
  ghost function Keyed<K, V>(item: seq<Item<K, V>>, lru: seq<int>): map<int, K> {
    map x | x in lru && 0 <= x < |item| :: item[x].key
  }

  lemma KeyedPush<K, V>(item: seq<Item<K, V>>, lru: seq<int>, x: int)
    requires 0 <= x < |item|
    ensures Keyed(item, [x] + lru) == Keyed(item, lru)[x := item[x].key]
  {
  }

  lemma KeyedCut<K, V>(item: seq<Item<K, V>>, lru: seq<int>, k: nat)
    requires Distinct(lru) && k < |lru|
    ensures Keyed(item, RemoveAt(lru, k)) == Keyed(item, lru) - {lru[k]}
  {
    DistinctRemove(lru, k);
  }

  lemma KeyedRefilled<K, V>(item: seq<Item<K, V>>, lru: seq<int>, x: int, new_: Item<K, V>)
    requires 0 <= x < |item| && x !in lru
    ensures Keyed(item[x := new_], lru) == Keyed(item, lru)
  {
  }

  lemma {:induction false} KeyedSize<K, V>(item: seq<Item<K, V>>, lru: seq<int>)
    requires Distinct(lru) && Within(lru, |item|)
    ensures |Keyed(item, lru)| == |lru|
  {
    hide Keyed, Distinct, Within;
    if lru == [] {
      KeyedFacts(item, lru, 0);
    } else {
      var t, x := lru[1..], lru[0];
      TailOf(lru, |item|);
      KeyedSize(item, t);
      assert lru == [x] + t;
      KeyedPush(item, t, x);
      KeyedFacts(item, t, x);
    }
  }

  lemma TailOf(s: seq<int>, n: nat)
    requires s != [] && Distinct(s) && Within(s, n)
    ensures Distinct(s[1..]) && Within(s[1..], n) && s[0] !in s[1..] && 0 <= s[0] < n
  {
    var t := s[1..];
    assert forall i | 0 <= i < |t| :: t[i] == s[i + 1];
  }

  lemma KeyedFacts<K, V>(item: seq<Item<K, V>>, lru: seq<int>, x: int)
    ensures x !in lru ==> x !in Keyed(item, lru)
    ensures lru == [] ==> Keyed(item, lru) == map[]
  {
  }

  lemma SelectedCut<K, V>(d: Deck<K, V>, size: nat, k: nat, gone: Item<K, V> -> bool)
    requires Sound(d, size) && k < |d.lru| && 0 <= d.lru[k] < |d.item| && gone(d.item[d.lru[k]])
    ensures Without(ItemsOf(d.item, RemoveAt(d.lru, k)), gone) == Without(ItemsOf(d.item, d.lru), gone)
    ensures |ItemsOf(d.item, RemoveAt(d.lru, k))| == |ItemsOf(d.item, d.lru)| - 1
  {
    hide Ring, Chain, ItemsOf, UniqueKeys, Without;
    LinkedFacts(d, size);
    ItemsCut(d.item, d.lru, k);
    WithoutCut(ItemsOf(d.item, d.lru), k, gone);
  }

  class Cache<K(==, !new), V> {
    const size: nat
    const index: HashIndex.Index?<K>
    var next: seq<int>
    var previous: seq<int>
    var item: seq<Item<K, V>>
    var mru: int
    var oldest: int
    var freeEntry: int
    var hits: nat
    var reads_: nat
    var writes: nat
    ghost var lru: seq<int>
    ghost var free: seq<int>

    ghost function Now(): Deck<K, V>
      reads this
    {
      Deck(next, previous, item, mru, oldest, freeEntry, lru, free)
    }

    ghost predicate Indexed()
      reads this, index
    {
      index != null ==> index.Valid() && index.size == size && index.members == Keyed(item, lru)
    }

    ghost predicate Valid()
      reads this, index
    {
      size >= 2 && Sound(Now(), size) && Indexed()
    }

    ghost function Items(): seq<Item<K, V>>
      reads this
    {
      ItemsOf(item, lru)
    }

    /** ntfs_create_cache; `blank` stands for what the fresh memory holds. */
    constructor (size: nat, maxHash: nat, hash: K -> int, blank: Item<K, V>)
      requires size >= 2 && forall k: K :: maxHash > 0 ==> 0 <= hash(k) < maxHash
      ensures Valid() && Items() == [] && this.size == size
      ensures index != null <==> maxHash > 0
      ensures index != null ==> fresh(index) && index.hash == hash
      ensures hits == reads_ == writes == 0
    {
      this.size := size;
      if maxHash > 0 {
        index := new HashIndex.Index<K>(size, maxHash, hash);
      } else {
        index := null;
      }
      next := seq(size, i => if i + 1 < size then i + 1 else NIL);
      previous := seq(size, _ => NIL);
      item := seq(size, _ => blank);
      mru, oldest, freeEntry := NIL, NIL, 0;
      hits, reads_, writes := 0, 0, 0;
      lru, free := [], seq(size, i => i);
      new;
      hide Sound;
      FreshSound(Now(), size);
      assert Keyed(item, lru) == map[];
    }

    /** The look-up shared by fetching and entering: by the index, or along the list. */
    method Search(key: K) returns (e: int)
      requires Valid()
      ensures e == NIL <==> !HasKey(Items(), key)
      ensures e != NIL ==> e in lru && 0 <= e < |item| && item[e].key == key
    {
      hide Ring, Chain, UniqueKeys, ItemsOf, HashIndex.Sound;
      ghost var items := Items();
      LinkedFacts(Now(), size);
      if index != null {
        e := index.Find(key, item);
        if e == NIL {
          assert forall i | 0 <= i < |lru| :: lru[i] in index.members;
        } else {
          ghost var k :| 0 <= k < |lru| && lru[k] == e;
          assert items[k].key == key;
        }
      } else {
        e := mru;
        ghost var j := 0;
        while e != NIL && item[e].key != key
          invariant 0 <= j <= |lru| && e == CellAt(lru, j)
          invariant forall i | 0 <= i < j :: items[i].key != key
          decreases |lru| - j
        {
          CanUnlink(Now(), size, j);
          e := next[e];
          j := j + 1;
        }
        assert e != NIL ==> items[j].key == key;
      }
    }

    /** Unlink a used entry that is not the most recent, and relink it as the head. */
    method Promote(e: int, ghost k: nat)
      requires Valid() && 0 < k < |lru| && e == lru[k]
      modifies this`next, this`previous, this`mru, this`oldest, this`lru
      ensures Valid() && mru == e
      ensures Items() == [item[e]] + RemoveAt(old(Items()), k)
    {
      hide Ring, Chain, Loose, Sound, Linked, ItemsOf, Keyed, RemoveAt, RemoveAt, HashIndex.Sound;
      ghost var d := Now();
      Promoted(d, size, k);
      var before := previous[e];
      next := next[before := next[e]];
      if next[e] != NIL {
        previous := previous[next[e] := previous[e]];
      } else {
        oldest := previous[e];
      }
      next := next[e := mru];
      previous := previous[e := NIL];
      previous := previous[mru := e];
      mru := e;
      lru := [e] + RemoveAt(lru, k);
      assert Now() == Fronted(d, k);
    }

    /** ntfs_fetch_cache */
    method Fetch(key: K) returns (e: int)
      requires Valid()
      modifies this
      ensures Valid() && item == old(item) && writes == old(writes)
      ensures e == NIL <==> !HasKey(old(Items()), key)
      ensures e != NIL ==> mru == e && 0 <= e < |item| && item[e].key == key
      ensures Items() == Touched(old(Items()), key)
      ensures reads_ == old(reads_) + 1 && hits == old(hits) + if e == NIL then 0 else 1
    {
      hide Ring, Chain, ItemsOf, Touched, Keyed, RemoveAt, UniqueKeys, HashIndex.Sound;
      ghost var items := Items();
      e := Search(key);
      if e != NIL {
        ghost var k :| 0 <= k < |lru| && lru[k] == e;
        LinkedFacts(Now(), size);
        CanUnlink(Now(), size, k);
        TouchedAt(items, k);
        CutFirst(items);
        hits := hits + 1;
        if previous[e] != NIL {
          Promote(e, k);
        }
      }
      TouchedMiss(items, key);
      reads_ := reads_ + 1;
    }

    /** The first free entry. */
    method PickFree() returns (e: int)
      requires Valid() && freeEntry != NIL
      modifies this`freeEntry, this`free
      ensures Loose(Now(), size, e) && Indexed()
      ensures Items() == Bounded(old(Items()), size - 1)
    {
      hide Ring, Chain, ItemsOf, Keyed, Loose, Sound, Linked, UniqueKeys, Distinct, HashIndex.Sound;
      ghost var d := Now();
      SoundLinked(d, size);
      LinkedFacts(d, size);
      PickedLoose(d, size);
      e := freeEntry;
      freeEntry := next[freeEntry];
      free := free[1..];
      assert Now() == Picked(d);
    }

    /** The oldest entry, taken off the list and out of the index. */
    method ReuseOldest() returns (e: int)
      requires Valid() && freeEntry == NIL
      modifies this`next, this`oldest, this`lru, index
      ensures Loose(Now(), size, e) && Indexed()
      ensures Items() == Bounded(old(Items()), size - 1)
    {
      hide Ring, Chain, ItemsOf, Keyed, Loose, Sound, Linked, UniqueKeys, RemoveAt, Distinct, HashIndex.Sound;
      ghost var d := Now();
      SoundLinked(d, size);
      LinkedFacts(d, size);
      ghost var k := |lru| - 1;
      assert free == [];
      CanUnlink(d, size, k);
      UnlinkedLoose(d, size, k);
      KeyedCut(item, lru, k);
      CutLast(ItemsOf(item, lru));
      e := oldest;
      var before := previous[e];
      next := next[before := NIL];
      if index != null {
        MemberKey(item, lru, k);
        ghost var j := index.Drop(e, index.hash(item[e].key));
      }
      oldest := previous[e];
      lru := RemoveAt(lru, k);
      assert Now() == Unlinked(d, k);
    }

    /** A free entry, or else the oldest one, made loose. */
    method TakeEntry() returns (e: int)
      requires Valid()
      modifies this`next, this`oldest, this`freeEntry, this`lru, this`free, index
      ensures Loose(Now(), size, e) && Indexed()
      ensures Items() == Bounded(old(Items()), size - 1)
    {
      if freeEntry != NIL {
        e := PickFree();
      } else {
        e := ReuseOldest();
      }
    }

    /** A loose entry is linked as the head, filled and indexed. */
    method PutOnTop(e: int, it: Item<K, V>)
      requires size >= 2 && Loose(Now(), size, e) && Indexed() && !HasKey(Items(), it.key)
      modifies this`next, this`previous, this`mru, this`oldest, this`item, this`lru, index
      ensures Valid() && Items() == [it] + old(Items()) && 0 <= e < |item| && item[e] == it && lru == [e] + old(lru)
    {
      hide Ring, Chain, ItemsOf, Keyed, Loose, Sound, Linked, UniqueKeys, Distinct, HasKey, HashIndex.Sound;
      ghost var d := Now();
      RefilledLoose(d, size, e, it);
      ghost var d1 := d.(item := d.item[e := it]);
      ToppedSound(d1, size, e);
      Room(d, size, e, it);
      if oldest == NIL {
        oldest := e;
      }
      next := next[e := mru];
      previous := previous[e := NIL];
      if mru != NIL {
        previous := previous[mru := e];
      }
      mru := e;
      item := item[e := it];
      if index != null {
        index.Insert(e, it.key);
      }
      lru := [e] + lru;
      assert Now() == Topped(d1, e);
    }

    /** ntfs_enter_cache: an item that is cached already is left alone, a new one becomes the head. */
    method Enter(it: Item<K, V>) returns (e: int)
      requires Valid()
      modifies this, index
      ensures Valid() && hits == old(hits) && reads_ == old(reads_) && writes == old(writes) + 1
      ensures e in lru && 0 <= e < |item| && item[e].key == it.key
      ensures HasKey(old(Items()), it.key) ==> Items() == old(Items())
      ensures !HasKey(old(Items()), it.key) ==> Items() == Entered(old(Items()), it, size) && item[e] == it
    {
      hide Ring, Chain, ItemsOf, Keyed, Loose, Sound, Linked, UniqueKeys, HasKey, Bounded, HashIndex.Sound;
      ghost var items := Items();
      e := Search(it.key);
      if e == NIL {
        e := TakeEntry();
        StillAbsent(items, it.key, size - 1);
        PutOnTop(e, it);
        assert e in lru;
      }
      writes := writes + 1;
    }

    /** do_invalidate: the entry leaves the list for the free list. */
    method Discard(e: int, ghost k: nat)
      requires Sound(Now(), size) && k < |lru| && e == lru[k]
      modifies this`next, this`previous, this`mru, this`oldest, this`freeEntry, this`lru, this`free
      ensures Sound(Now(), size) && lru == RemoveAt(old(lru), k)
    {
      hide Ring, Chain, ItemsOf, Loose, Sound, Linked, UniqueKeys, Distinct, RemoveAt;
      ghost var d := Now();
      SoundLinked(d, size);
      CanUnlink(d, size, k);
      NoSelfLink(d, size, k);
      UnlinkedLoose(d, size, k);
      FreedSound(Unlinked(d, k), size, e);
      var before := previous[e];
      if next[e] != NIL {
        previous := previous[next[e] := previous[e]];
      } else {
        oldest := previous[e];
      }
      if before != NIL {
        next := next[before := next[e]];
      } else {
        mru := next[e];
      }
      next := next[e := freeEntry];
      freeEntry := e;
      lru, free := RemoveAt(lru, k), [e] + free;
      assert Now() == Freed(Unlinked(d, k), e);
    }

    /** drophashindex, then do_invalidate. */
    method DropEntry(e: int, h: int, ghost k: nat) returns (ghost j: nat)
      requires Valid() && k < |lru| && e == lru[k] && 0 <= e < |item|
      requires index != null ==> h == index.hash(item[e].key)
      modifies this`next, this`previous, this`mru, this`oldest, this`freeEntry, this`lru, this`free, index
      ensures Valid() && lru == RemoveAt(old(lru), k)
      ensures index != null ==>
                HashIndex.LinkIs(old(index.Now()), index.hash, e, h, j)
                && index.chains == old(index.chains)[h := RemoveAt(old(index.chains)[h], j)]
                && index.entry == old(index.entry)
    {
      hide Ring, Chain, ItemsOf, Keyed, Loose, Sound, Linked, UniqueKeys, Distinct, RemoveAt, HashIndex.Sound;
      SoundLinked(Now(), size);
      LinkedFacts(Now(), size);
      KeyedCut(item, lru, k);
      j := 0;
      if index != null {
        MemberKey(item, lru, k);
        j := index.Drop(e, h);
      }
      Discard(e, k);
    }

    ghost function Hashing(): Hashing<K> {
      if index == null then Unhashed else Hashed(index.hash)
    }

    /** The sequential half of ntfs_invalidate_cache. */
    method InvalidateAll(gone: Item<K, V> -> bool) returns (count: int)
      requires Valid()
      modifies this, index
      ensures Valid() && hits == old(hits) && reads_ == old(reads_) && writes == old(writes)
      ensures Items() == Without(old(Items()), gone) && count == |old(Items())| - |Items()|
    {
      hide Ring, Chain, ItemsOf, Keyed, Loose, Sound, Linked, UniqueKeys, Distinct, Without, RemoveAt, HashIndex.Sound;
      ghost var items, item0 := Items(), item;
      count := 0;
      var current := mru;
      ghost var j := 0;
      CurrentAt(Now(), size, 0);
      while current != NIL
        invariant Valid() && item == item0 && hits == old(hits) && reads_ == old(reads_) && writes == old(writes)
        invariant 0 <= j <= |lru| && Within(lru, |item|) && current == CellAt(lru, j)
        invariant forall i | 0 <= i < j :: !gone(item[lru[i]])
        invariant Without(Items(), gone) == Without(items, gone) && count == |items| - |Items()|
        decreases |lru| - j
      {
        CurrentAt(Now(), size, j);
        if gone(item[current]) {
          var after := next[current];
          SelectedCut(Now(), size, j, gone);
          RemovedAt(lru, j);
          ghost var j' := DropEntry(current, if index != null then index.hash(item[current].key) else 0, j);
          current := after;
          count := count + 1;
          CurrentAt(Now(), size, j);
        } else {
          current := next[current];
          j := j + 1;
        }
      }
      CurrentAt(Now(), size, j);
      WithoutNone(Items(), gone);
    }

    /** No item of the first `j` links on the chain of `h` is to go. */
    ghost predicate Swept(h: int, j: nat, gone: Item<K, V> -> bool)
      reads this, index
    {
      index != null && 0 <= h < |index.chains| && j <= |index.chains[h]|
      && forall i | 0 <= i < j :: Stays(item, index.entry, index.chains[h][i], gone)
    }

    /** The half of ntfs_invalidate_cache that follows the chain of the probe. */
    method InvalidateChain(probe: K, gone: Item<K, V> -> bool) returns (count: int)
      requires Valid() && index != null
      modifies this, index
      ensures Valid() && hits == old(hits) && reads_ == old(reads_) && writes == old(writes)
      ensures Items() == Without(old(Items()), Reach(Hashing(), probe, gone, false)) && count == |old(Items())| - |Items()|
    {
      hide Ring, Chain, ItemsOf, Keyed, Loose, Sound, Linked, UniqueKeys, Distinct, Without, RemoveAt,
        HashIndex.Sound, HashIndex.LinkIs, Stays, HashIndex.Placed;
      ghost var items, item0, all := Items(), item, Reach(Hashing(), probe, gone, false);
      count := 0;
      var h := index.hash(probe);
      HashIndex.Heads(index.Now(), size, index.maxHash, index.hash, h);
      var link := index.first[h];
      ghost var j := 0;
      while link != NIL
        invariant Valid() && item == item0 && hits == old(hits) && reads_ == old(reads_) && writes == old(writes)
        invariant Swept(h, j, gone) && link == CellAt(index.chains[h], j)
        invariant Without(Items(), all) == Without(items, all) && count == |items| - |Items()|
        decreases |index.chains[h]| - j
      {
        ghost var s := index.Now();
        HashIndex.OnChain(s, size, index.maxHash, index.hash, h, j);
        var e := index.entry[link];
        ghost var k := EntryAt(Now(), size, s, index.hash, link, h);
        if !gone(item[e]) {
          assert Stays(item, index.entry, index.chains[h][j], gone) by { StaysIntro(item, index.entry, link, gone); }
          link := index.next[link];
          j := j + 1;
        } else {
          link := index.next[link];
          SelectedCut(Now(), size, k, all);
          ghost var j' := DropEntry(e, h, k);
          SameSpot(s, size, index.maxHash, index.hash, e, h, j, j');
          RemovedAt(s.chains[h], j);
          count := count + 1;
        }
      }
      NoneLeft(h, j, probe, gone);
      WithoutNone(Items(), all);
    }

    /** A chain swept to its end leaves no item that the invalidation reaches. */
    lemma NoneLeft(h: int, j: nat, probe: K, gone: Item<K, V> -> bool)
      requires Valid() && index != null && h == index.hash(probe)
      requires Swept(h, j, gone) && CellAt(index.chains[h], j) == NIL
      ensures forall i | 0 <= i < |Items()| :: !Reach(Hashing(), probe, gone, false)(Items()[i])
    {
      hide Ring, Chain, ItemsOf, UniqueKeys, HashIndex.Sound;
      var s := index.Now();
      HashIndex.Heads(s, size, index.maxHash, index.hash, h);
      if j < |s.chains[h]| { HashIndex.OnChain(s, size, index.maxHash, index.hash, h, j); }
      LinkedFacts(Now(), size);
      forall i | 0 <= i < |Items()|
        ensures !Reach(Hashing(), probe, gone, false)(Items()[i])
      {
        var x := lru[i];
        MemberKey(item, lru, i);
        HashIndex.KeyOnChain(s, size, index.maxHash, index.hash, x, h);
        if index.hash(item[x].key) == h {
          var p :| 0 <= p < |s.chains[h]| && 0 <= s.chains[h][p] < |s.entry| && s.entry[s.chains[h][p]] == x;
          assert Stays(item, s.entry, s.chains[h][p], gone);
        }
      }
    }

    /** ntfs_invalidate_cache */
    method Invalidate(probe: K, gone: Item<K, V> -> bool, noHash: bool) returns (count: int)
      requires Valid()
      modifies this, index
      ensures Valid() && hits == old(hits) && reads_ == old(reads_) && writes == old(writes)
      ensures Items() == Without(old(Items()), Reach(Hashing(), probe, gone, noHash))
      ensures count == |old(Items())| - |Items()|
    {
      hide Ring, Chain, ItemsOf, Keyed, Sound, Without, HashIndex.Sound;
      if !noHash && index != null {
        count := InvalidateChain(probe, gone);
      } else {
        count := InvalidateAll(gone);
      }
    }

    /** ntfs_remove_cache, for an entry in use. */
    method Remove(e: int) returns (count: int)
      requires Valid() && e in lru && 0 <= e < |item|
      modifies this, index
      ensures Valid() && count == 1 && item == old(item)
      ensures Items() == Without(old(Items()), OfKey(old(item[e].key)))
    {
      hide Ring, Chain, ItemsOf, Keyed, Loose, Linked, UniqueKeys, Distinct, Without, RemoveAt, HashIndex.Sound;
      ghost var k :| 0 <= k < |lru| && lru[k] == e;
      RemovedKey(Now(), size, k);
      ghost var j := DropEntry(e, if index != null then index.hash(item[e].key) else 0, k);
      count := 1;
    }

    /** One call. */
    method Perform(op: Op<K, V>)
      requires Valid()
      modifies this, index
      ensures Valid() && Items() == Apply(old(Items()), op, size, Hashing())
    {
      hide Ring, Chain, ItemsOf, Keyed, Loose, Sound, Linked, UniqueKeys, Without, HashIndex.Sound, HasKey, Touched, Entered, Indexed;
      match op {
        case Fetch(key) =>
          var e := Fetch(key);
        case Enter(it) =>
          var e := Enter(it);
        case Invalidate(probe, gone, noHash) =>
          var count := Invalidate(probe, gone, noHash);
        case Remove(key) =>
          var e := Search(key);
          if e != NIL {
            var count := Remove(e);
          } else {
            NothingOfKey(Items(), key);
          }
      }
    }

    /** Any run of calls: the cache is the bounded move-to-front sequence. */
    method PerformAll(ops: seq<Op<K, V>>)
      requires Valid()
      modifies this, index
      ensures Valid() && Items() == Run(old(Items()), ops, size, Hashing())
    {
      hide Sound, Indexed, ItemsOf, Apply, Run, Linked, HashIndex.Sound;
      var n := 0;
      RunNone(Items(), size, Hashing());
      assert ops[..0] == [];
      while n < |ops|
        invariant n <= |ops| && Valid() && Items() == Run(old(Items()), ops[..n], size, Hashing())
      {
        assert ops[..n + 1] == ops[..n] + [ops[n]];
        RunMore(old(Items()), ops[..n], ops[n], size, Hashing());
        Perform(ops[n]);
        n := n + 1;
      }
      assert ops[..n] == ops;
    }
  }

  lemma CutFirst<T>(s: seq<T>)
    ensures s != [] ==> [s[0]] + RemoveAt(s, 0) == s
  {
  }

  lemma CutLast<T>(s: seq<T>)
    requires s != []
    ensures RemoveAt(s, |s| - 1) == s[..|s| - 1]
  {
  }

  lemma TouchedMiss<K, V>(s: seq<Item<K, V>>, key: K)
    ensures !HasKey(s, key) ==> Touched(s, key) == s
  {
  }

  /** What a walk along the list knows at its `j`-th entry. */
  lemma CurrentAt<K, V>(d: Deck<K, V>, size: nat, j: nat)
    requires Sound(d, size)
    ensures |d.next| == |d.item| == size && Within(d.lru, size) && d.mru == CellAt(d.lru, 0)
    ensures |ItemsOf(d.item, d.lru)| == |d.lru|
    ensures forall i | 0 <= i < |d.lru| :: ItemsOf(d.item, d.lru)[i] == d.item[d.lru[i]]
    ensures j < |d.lru| ==> d.next[d.lru[j]] == CellAt(d.lru, j + 1) && d.lru[j] != NIL
  {
    hide Ring, Chain, ItemsOf, UniqueKeys;
    LinkedFacts(d, size);
    if j < |d.lru| { CanUnlink(d, size, j); }
  }

  lemma RemovedAt(s: seq<int>, j: nat)
    requires j < |s|
    ensures |RemoveAt(s, j)| == |s| - 1 && CellAt(RemoveAt(s, j), j) == CellAt(s, j + 1)
    ensures forall i | 0 <= i < j :: RemoveAt(s, j)[i] == s[i]
  {
  }

  /** Link `l` names an entry whose item is to stay. */
  ghost predicate Stays<K, V>(item: seq<Item<K, V>>, entry: seq<int>, l: int, gone: Item<K, V> -> bool) {
    0 <= l < |entry| && 0 <= entry[l] < |item| && !gone(item[entry[l]])
  }

  lemma StaysIntro<K, V>(item: seq<Item<K, V>>, entry: seq<int>, l: int, gone: Item<K, V> -> bool)
    requires 0 <= l < |entry| && 0 <= entry[l] < |item| && !gone(item[entry[l]])
    ensures Stays(item, entry, l, gone)
  {
  }

  /** The place in the list of the entry that a link on the chain of `h` names. */
  ghost function EntryAt<K, V>(d: Deck<K, V>, size: nat, s: HashIndex.Shape<K>, hash: K -> int, l: int, h: int): (k: nat)
    requires Sound(d, size) && HashIndex.Placed(s, hash, l, h) && s.members == Keyed(d.item, d.lru)
    ensures 0 <= l < |s.entry| && k < |d.lru| && d.lru[k] == s.entry[l] && 0 <= s.entry[l] < |d.item|
    ensures hash(d.item[s.entry[l]].key) == h
  {
    var k :| 0 <= k < |d.lru| && d.lru[k] == s.entry[l];
    k
  }

  lemma SameSpot<K>(s: HashIndex.Shape<K>, size: nat, maxHash: nat, hash: K -> int, e: int, h: int, j: nat, j': nat)
    requires HashIndex.Sound(s, size, maxHash, hash) && 0 <= h < maxHash
    requires HashIndex.LinkIs(s, hash, e, h, j') && j < |s.chains[h]|
    requires 0 <= s.chains[h][j] < |s.entry| && s.entry[s.chains[h][j]] == e
    ensures j == j'
  {
    hide HashIndex.Sound;
    HashIndex.Heads(s, size, maxHash, hash, h);
    HashIndex.SameLink(s, size, maxHash, hash, e, h, j);
    HashIndex.ChainDistinct(s.next, s.first[h], s.chains[h]);
  }

  lemma MemberKey<K, V>(item: seq<Item<K, V>>, lru: seq<int>, k: nat)
    requires k < |lru| && 0 <= lru[k] < |item|
    ensures lru[k] in Keyed(item, lru) && Keyed(item, lru)[lru[k]] == item[lru[k]].key
  {
  }

  lemma NoSelfLink<K, V>(d: Deck<K, V>, size: nat, k: nat)
    requires Linked(d, size) && k < |d.lru|
    ensures 0 <= d.lru[k] < |d.next| == |d.previous|
    ensures d.next[d.lru[k]] != d.lru[k] && d.previous[d.lru[k]] != d.lru[k]
  {
    hide Ring, Chain;
    CanUnlink(d, size, k);
    LinkedFacts(d, size);
  }

  lemma StillAbsent<K, V>(s: seq<Item<K, V>>, key: K, n: nat)
    requires !HasKey(s, key)
    ensures !HasKey(Bounded(s, n), key)
  {
    var t := Bounded(s, n);
    assert forall i | 0 <= i < |t| :: t[i] == s[i];
  }

  /** There is room in the index for the entry put on top. */
  lemma Room<K, V>(d: Deck<K, V>, size: nat, e: int, it: Item<K, V>)
    requires Loose(d, size, e)
    ensures |d.item| == size && 0 <= e < size && e !in Keyed(d.item, d.lru) && |Keyed(d.item, d.lru)| < size
    ensures Keyed(d.item[e := it], [e] + d.lru) == Keyed(d.item, d.lru)[e := it.key]
  {
    hide Ring, Chain, UniqueKeys, ItemsOf;
    LinkedFacts(d, size);
    KeyedSize(d.item, d.lru);
    KeyedRefilled(d.item, d.lru, e, it);
    KeyedPush(d.item[e := it], d.lru, e);
  }

  lemma RemovedKey<K, V>(d: Deck<K, V>, size: nat, k: nat)
    requires Sound(d, size) && k < |d.lru|
    ensures 0 <= d.lru[k] < |d.item|
    ensures ItemsOf(d.item, RemoveAt(d.lru, k))
            == Without(ItemsOf(d.item, d.lru), OfKey(d.item[d.lru[k]].key))
  {
    hide Ring, Chain, UniqueKeys, ItemsOf, Without, RemoveAt;
    LinkedFacts(d, size);
    var gone := OfKey<K, V>(d.item[d.lru[k]].key);
    SelectedCut(d, size, k, gone);
    NotCached(d, size, k);
    var r := ItemsOf(d.item, RemoveAt(d.lru, k));
    WithoutNone(r, gone);
  }

  function Fronted<K, V>(d: Deck<K, V>, k: nat): Deck<K, V>
    requires k < |d.lru| && |d.next| == |d.previous| && 0 <= d.lru[k] < |d.next| && 0 <= d.mru < |d.next|
    requires NIL <= d.next[d.lru[k]] < |d.next| && 0 <= d.previous[d.lru[k]] < |d.next|
  {
    Topped(Unlinked(d, k), d.lru[k])
  }

  lemma Promoted<K, V>(d: Deck<K, V>, size: nat, k: nat)
    requires Sound(d, size) && 0 < k < |d.lru|
    ensures |d.next| == |d.previous| == |d.item| == size && 0 <= d.lru[k] < size && 0 <= d.mru < size
    ensures NIL <= d.next[d.lru[k]] < size && 0 <= d.previous[d.lru[k]] < size
    ensures d.next[d.lru[k]] != d.lru[k] && d.lru[k] != d.previous[d.lru[k]] && d.oldest != NIL
    ensures Sound(Fronted(d, k), size) && Keyed(d.item, Fronted(d, k).lru) == Keyed(d.item, d.lru)
    ensures |ItemsOf(d.item, d.lru)| == |d.lru|
    ensures ItemsOf(d.item, Fronted(d, k).lru) == [d.item[d.lru[k]]] + RemoveAt(ItemsOf(d.item, d.lru), k)
  {
    hide Ring, Chain, Loose, ItemsOf, UniqueKeys;
    var e := d.lru[k];
    CanUnlink(d, size, k);
    LinkedFacts(d, size);
    UnlinkedLoose(d, size, k);
    NotCached(d, size, k);
    ToppedSound(Unlinked(d, k), size, e);
    KeyedCut(d.item, d.lru, k);
    KeyedPush(d.item, RemoveAt(d.lru, k), e);
  }

  lemma SoundLinked<K, V>(d: Deck<K, V>, size: nat)
    requires Sound(d, size)
    ensures Linked(d, size) && UniqueKeys(ItemsOf(d.item, d.lru)) && |d.lru| + |d.free| == size
  {
  }

  /** Once an entry is out of the list, its key is not cached. */
  lemma NotCached<K, V>(d: Deck<K, V>, size: nat, k: nat)
    requires Sound(d, size) && k < |d.lru|
    ensures 0 <= d.lru[k] < |d.item|
    ensures !HasKey(ItemsOf(d.item, RemoveAt(d.lru, k)), d.item[d.lru[k]].key)
  {
    hide Ring, Chain, ItemsOf, UniqueKeys;
    LinkedFacts(d, size);
    ItemsCut(d.item, d.lru, k);
    CutUnique(ItemsOf(d.item, d.lru), k);
  }

  lemma NothingOfKey<K, V>(s: seq<Item<K, V>>, key: K)
    requires !HasKey(s, key)
    ensures Without(s, OfKey(key)) == s
  {
    hide Without;
    WithoutNone(s, OfKey(key));
  }

  lemma RunNone<K, V>(s: seq<Item<K, V>>, size: nat, hashing: Hashing<K>)
    requires size > 0
    ensures Run(s, [], size, hashing) == s
  {
  }

  /** Two caches, one no bigger than the other, under the same accesses: what the small one holds, so does the big one. */
  method SideBySide<K(==, !new), V>(small: Cache<K, V>, big: Cache<K, V>, ops: seq<Op<K, V>>, ghost accesses: seq<Access<K, V>>)
    requires small.Valid() && big.Valid() && small != big && (small.index != null ==> small.index != big.index)
    requires small.size <= big.size && small.Hashing() == big.Hashing() && small.Items() == big.Items() == []
    requires ops == AllCalls(accesses)
    modifies small, big, small.index, big.index
    ensures small.Valid() && big.Valid() && Leads(small.Items(), big.Items())
    ensures forall key :: HasKey(small.Items(), key) ==> HasKey(big.Items(), key)
  {
    hide Sound, ItemsOf, Run, Linked, HashIndex.Sound, Leads, HasKey;
    small.PerformAll(ops);
    big.PerformAll(ops);
    Inclusion(accesses, small.size, big.size, small.Hashing());
    LeadsFinds(small.Items(), big.Items());
  }

  lemma LeadsFinds<K(!new), V>(a: seq<Item<K, V>>, b: seq<Item<K, V>>)
    requires Leads(a, b)
    ensures forall key :: HasKey(a, key) ==> HasKey(b, key)
  {
    forall key | HasKey(a, key)
      ensures HasKey(b, key)
    {
      var i :| 0 <= i < |a| && a[i].key == key;
      assert b[i].key == key;
    }
  }
}
