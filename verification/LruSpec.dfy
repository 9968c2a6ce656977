/**
 The LRU cache as a bounded sequence of items, most recently used first, and what every
 run of cache operations does to it.
 */
module LruSpec {
  import opened Sequences

  datatype Item<K, V> = Item(key: K, value: V)

  ghost predicate UniqueKeys<K, V>(s: seq<Item<K, V>>) {
    forall i, j | 0 <= i < j < |s| :: s[i].key != s[j].key
  }

  ghost predicate HasKey<K, V>(s: seq<Item<K, V>>, key: K) {
    exists i | 0 <= i < |s| :: s[i].key == key
  }

  /** `s` without the items chosen, in the same order. */
  function Without<T>(s: seq<T>, gone: T -> bool): seq<T> {
    if s == [] then [] else
      var rest := Without(s[..|s| - 1], gone);
      if gone(s[|s| - 1]) then rest else rest + [s[|s| - 1]]
  }

  function Bounded<T>(s: seq<T>, n: nat): seq<T> {
    if |s| > n then s[..n] else s
  }

  /** A hit moves the item to the front. */
  ghost function Touched<K, V>(s: seq<Item<K, V>>, key: K): seq<Item<K, V>> {
    if HasKey(s, key) then
      var k :| 0 <= k < |s| && s[k].key == key;
      [s[k]] + RemoveAt(s, k)
    else s
  }

  /** A new item goes to the front; the oldest makes way if the cache is full. */
  function Entered<K, V>(s: seq<Item<K, V>>, item: Item<K, V>, size: nat): seq<Item<K, V>>
    requires size > 0
  {
    [item] + Bounded(s, size - 1)
  }

  lemma TouchedAt<K, V>(s: seq<Item<K, V>>, k: nat)
    requires k < |s| && UniqueKeys(s)
    ensures Touched(s, s[k].key) == [s[k]] + RemoveAt(s, k)
  {
    assert HasKey(s, s[k].key);
  }

  lemma CutUnique<K, V>(s: seq<Item<K, V>>, k: nat)
    requires k < |s| && UniqueKeys(s)
    ensures UniqueKeys(RemoveAt(s, k)) && !HasKey(RemoveAt(s, k), s[k].key) && |RemoveAt(s, k)| == |s| - 1
  {
    var r := RemoveAt(s, k);
    assert forall i | 0 <= i < |r| :: r[i] == if i < k then s[i] else s[i + 1];
  }

  lemma {:induction false} WithoutAppend<T>(a: seq<T>, b: seq<T>, gone: T -> bool)
    ensures Without(a + b, gone) == Without(a, gone) + Without(b, gone)
  {
    if b == [] {
      assert a + b == a;
    } else {
      assert (a + b)[..|a + b| - 1] == a + b[..|b| - 1];
      WithoutAppend(a, b[..|b| - 1], gone);
    }
  }

  lemma WithoutOne<T>(x: T, gone: T -> bool)
    ensures Without([x], gone) == if gone(x) then [] else [x]
  {
    assert [x][..0] == [];
  }

  /** Taking out an item that goes anyway changes nothing. */
  lemma WithoutCut<T>(s: seq<T>, k: nat, gone: T -> bool)
    requires k < |s| && gone(s[k])
    ensures Without(RemoveAt(s, k), gone) == Without(s, gone)
  {
    hide Without;
    var a, b := s[..k], s[k + 1..];
    assert s == a + ([s[k]] + b);
    WithoutAppend(a, [s[k]] + b, gone);
    WithoutAppend([s[k]], b, gone);
    WithoutOne(s[k], gone);
    assert [] + Without(b, gone) == Without(b, gone);
    WithoutAppend(a, b, gone);
  }

  lemma {:induction false} WithoutNone<T>(s: seq<T>, gone: T -> bool)
    requires forall i | 0 <= i < |s| :: !gone(s[i])
    ensures Without(s, gone) == s
  {
    if s != [] {
      WithoutNone(s[..|s| - 1], gone);
      assert s == s[..|s| - 1] + [s[|s| - 1]];
    }
  }

  /** Removal by two conditions that agree on the items is the same removal. */
  lemma {:induction false} WithoutSame<T>(s: seq<T>, gone: T -> bool, gone': T -> bool)
    requires forall i | 0 <= i < |s| :: gone(s[i]) == gone'(s[i])
    ensures Without(s, gone) == Without(s, gone')
  {
    if s != [] { WithoutSame(s[..|s| - 1], gone, gone'); }
  }

  // ----- whole runs

  /** The calls on a cache; a removal is given the entry that holds the key, if there is one. */
  datatype Op<!K, !V> =
    | Fetch(key: K)
    | Enter(item: Item<K, V>)
    | Invalidate(probe: K, gone: Item<K, V> -> bool, noHash: bool)
    | Remove(key: K)

  /** How the keys of a cache are hashed, if they are. */
  datatype Hashing<!K> = Unhashed | Hashed(hash: K -> int)

  /** The items that an invalidation reaches: by an index only those that hash like the probe. */
  ghost function Reach<K, V>(hashing: Hashing<K>, probe: K, gone: Item<K, V> -> bool, noHash: bool): Item<K, V> -> bool {
    if noHash || hashing.Unhashed? then gone
    else var h := hashing.hash; (i: Item<K, V>) => gone(i) && h(i.key) == h(probe)
  }

  ghost function OfKey<K, V>(key: K): Item<K, V> -> bool {
    (i: Item<K, V>) => i.key == key
  }

  ghost function Apply<K, V>(s: seq<Item<K, V>>, op: Op<K, V>, size: nat, hashing: Hashing<K>): seq<Item<K, V>>
    requires size > 0
  {
    match op
    case Fetch(key) => Touched(s, key)
    case Enter(item) => if HasKey(s, item.key) then s else Entered(s, item, size)
    case Invalidate(probe, gone, noHash) => Without(s, Reach(hashing, probe, gone, noHash))
    case Remove(key) => Without(s, OfKey(key))
  }

  /** The contents after a run of calls. */
  ghost function Run<K, V>(s: seq<Item<K, V>>, ops: seq<Op<K, V>>, size: nat, hashing: Hashing<K>): seq<Item<K, V>>
    requires size > 0
    decreases |ops|
  {
    if ops == [] then s else Apply(Run(s, ops[..|ops| - 1], size, hashing), ops[|ops| - 1], size, hashing)
  }

  lemma RunMore<K, V>(s: seq<Item<K, V>>, ops: seq<Op<K, V>>, op: Op<K, V>, size: nat, hashing: Hashing<K>)
    requires size > 0
    ensures Run(s, ops + [op], size, hashing) == Apply(Run(s, ops, size, hashing), op, size, hashing)
  {
    hide Apply;
    assert (ops + [op])[..|ops|] == ops;
  }

  /** The keys of `a` are the first keys of `b`. */
  ghost predicate Leads<K, V>(a: seq<Item<K, V>>, b: seq<Item<K, V>>) {
    |a| <= |b| && forall i | 0 <= i < |a| :: a[i].key == b[i].key
  }

  lemma {:induction false} WithoutUnique<K, V>(s: seq<Item<K, V>>, gone: Item<K, V> -> bool)
    requires UniqueKeys(s)
    ensures UniqueKeys(Without(s, gone)) && |Without(s, gone)| <= |s|
    ensures forall key :: HasKey(Without(s, gone), key) ==> HasKey(s, key)
  {
    if s != [] {
      var t, last := s[..|s| - 1], s[|s| - 1];
      WithoutUnique(t, gone);
      var rest := Without(t, gone);
      assert !HasKey(t, last.key);
      forall key | HasKey(Without(s, gone), key)
        ensures HasKey(s, key)
      {
        if HasKey(rest, key) {
          assert HasKey(t, key);
          var i :| 0 <= i < |t| && t[i].key == key;
          assert s[i].key == key;
        } else {
          assert s[|s| - 1].key == key;
        }
      }
      assert forall i | 0 <= i < |rest| :: HasKey(rest, rest[i].key);
    }
  }

  lemma TouchedKeeps<K, V>(s: seq<Item<K, V>>, key: K)
    requires UniqueKeys(s)
    ensures UniqueKeys(Touched(s, key)) && |Touched(s, key)| == |s|
  {
    hide Touched, RemoveAt, UniqueKeys;
    if HasKey(s, key) {
      var k :| 0 <= k < |s| && s[k].key == key;
      TouchedAt(s, k);
      CutUnique(s, k);
      PushUnique(s[k], RemoveAt(s, k));
    } else {
      TouchedHas(s, key);
    }
  }

  lemma PushUnique<K, V>(x: Item<K, V>, s: seq<Item<K, V>>)
    requires UniqueKeys(s) && !HasKey(s, x.key)
    ensures UniqueKeys([x] + s)
  {
    assert forall i | 0 <= i < |s| :: HasKey(s, s[i].key);
  }

  lemma EnteredKeeps<K, V>(s: seq<Item<K, V>>, item: Item<K, V>, size: nat)
    requires size > 0 && UniqueKeys(s) && |s| <= size && !HasKey(s, item.key)
    ensures UniqueKeys(Entered(s, item, size)) && |Entered(s, item, size)| <= size
  {
    var r := Bounded(s, size - 1);
    assert forall i | 0 <= i < |r| :: r[i] == s[i] && HasKey(s, s[i].key);
  }

  /** Every call keeps the keys unique and the bound. */
  lemma ApplyKeeps<K, V>(s: seq<Item<K, V>>, op: Op<K, V>, size: nat, hashing: Hashing<K>)
    requires size > 0 && UniqueKeys(s) && |s| <= size
    ensures UniqueKeys(Apply(s, op, size, hashing)) && |Apply(s, op, size, hashing)| <= size
  {
    hide Touched, Entered, Without, UniqueKeys;
    match op {
      case Fetch(key) => TouchedKeeps(s, key);
      case Enter(item) => if !HasKey(s, item.key) { EnteredKeeps(s, item, size); }
      case Invalidate(probe, gone, noHash) => WithoutUnique(s, Reach(hashing, probe, gone, noHash));
      case Remove(key) => WithoutUnique(s, OfKey(key));
    }
  }

  /** So does every run. */
  lemma {:induction false} RunKeeps<K, V>(s: seq<Item<K, V>>, ops: seq<Op<K, V>>, size: nat, hashing: Hashing<K>)
    requires size > 0 && UniqueKeys(s) && |s| <= size
    ensures UniqueKeys(Run(s, ops, size, hashing)) && |Run(s, ops, size, hashing)| <= size
    decreases |ops|
  {
    hide Apply, UniqueKeys;
    if ops != [] {
      var before := ops[..|ops| - 1];
      RunKeeps(s, before, size, hashing);
      ApplyKeeps(Run(s, before, size, hashing), ops[|ops| - 1], size, hashing);
    }
  }

  // ----- inclusion

  /**
   The accesses of a client: a look-up that enters the item after a miss, an invalidation by
   key, a removal.
   */
  datatype Access<!K, !V> = Use(item: Item<K, V>) | Drop(probe: K, gone: K -> bool, noHash: bool) | Forget(key: K)

  /** The calls that an access makes: entering after a hit changes nothing. */
  ghost function Calls<K, V>(a: Access<K, V>): seq<Op<K, V>> {
    match a
    case Use(item) => [Fetch(item.key), Enter(item)]
    case Drop(probe, gone, noHash) => [Invalidate(probe, (i: Item<K, V>) => gone(i.key), noHash)]
    case Forget(key) => [Remove(key)]
  }

  ghost function AllCalls<K, V>(accesses: seq<Access<K, V>>): seq<Op<K, V>> {
    if accesses == [] then [] else AllCalls(accesses[..|accesses| - 1]) + Calls(accesses[|accesses| - 1])
  }

  /** What an access does to the contents. */
  ghost function Accessed<K, V>(s: seq<Item<K, V>>, a: Access<K, V>, size: nat, hashing: Hashing<K>): seq<Item<K, V>>
    requires size > 0
  {
    match a
    case Use(item) => if HasKey(s, item.key) then Touched(s, item.key) else Entered(s, item, size)
    case Drop(probe, gone, noHash) => Without(s, Reach(hashing, probe, (i: Item<K, V>) => gone(i.key), noHash))
    case Forget(key) => Without(s, OfKey(key))
  }

  lemma TouchedHas<K, V>(s: seq<Item<K, V>>, key: K)
    ensures HasKey(Touched(s, key), key) <==> HasKey(s, key)
    ensures !HasKey(s, key) ==> Touched(s, key) == s
  {
    if HasKey(s, key) {
      assert Touched(s, key)[0].key == key;
    }
  }

  lemma RunAccess<K, V>(s: seq<Item<K, V>>, ops: seq<Op<K, V>>, a: Access<K, V>, size: nat, hashing: Hashing<K>)
    requires size > 0
    ensures Run(s, ops + Calls(a), size, hashing) == Accessed(Run(s, ops, size, hashing), a, size, hashing)
  {
    hide Run, Touched, Entered, Without, Reach, OfKey, HasKey;
    var now := Run(s, ops, size, hashing);
    match a {
      case Use(item) =>
        assert ops + Calls(a) == ops + [Fetch(item.key)] + [Enter(item)];
        RunMore(s, ops, Fetch(item.key), size, hashing);
        RunMore(s, ops + [Fetch(item.key)], Enter(item), size, hashing);
        TouchedHas(now, item.key);
      case Drop(probe, gone, noHash) =>
        RunMore(s, ops, Calls(a)[0], size, hashing);
        assert Calls(a) == [Calls(a)[0]];
      case Forget(key) =>
        RunMore(s, ops, Calls(a)[0], size, hashing);
        assert Calls(a) == [Calls(a)[0]];
    }
  }

  lemma {:induction false} WithoutLeads<K, V>(a: seq<Item<K, V>>, b: seq<Item<K, V>>, gone: K -> bool)
    requires Leads(a, b)
    ensures Leads(Without(a, (i: Item<K, V>) => gone(i.key)), Without(b, (i: Item<K, V>) => gone(i.key)))
    decreases |b|
  {
    var g := (i: Item<K, V>) => gone(i.key);
    if b != [] {
      if |a| < |b| {
        WithoutLeads(a, b[..|b| - 1], gone);
      } else {
        WithoutLeads(a[..|a| - 1], b[..|b| - 1], gone);
        assert a[|a| - 1].key == b[|b| - 1].key;
        WithoutLeadsSize(a[..|a| - 1], b[..|b| - 1], gone);
      }
    }
  }

  lemma {:induction false} WithoutLeadsSize<K, V>(a: seq<Item<K, V>>, b: seq<Item<K, V>>, gone: K -> bool)
    requires Leads(a, b) && |a| == |b|
    ensures |Without(a, (i: Item<K, V>) => gone(i.key))| == |Without(b, (i: Item<K, V>) => gone(i.key))|
  {
    if b != [] {
      WithoutLeadsSize(a[..|a| - 1], b[..|b| - 1], gone);
      assert a[|a| - 1].key == b[|b| - 1].key;
    }
  }

  lemma TouchLeads<K, V>(a: seq<Item<K, V>>, b: seq<Item<K, V>>, k: nat)
    requires Leads(a, b) && k < |a|
    ensures Leads([a[k]] + RemoveAt(a, k), [b[k]] + RemoveAt(b, k))
  {
    var x, y := RemoveAt(a, k), RemoveAt(b, k);
    assert forall i | 0 <= i < |x| :: x[i] == if i < k then a[i] else a[i + 1];
    assert forall i | 0 <= i < |y| :: y[i] == if i < k then b[i] else b[i + 1];
  }

  lemma ReachByKey<K, V>(s: seq<Item<K, V>>, hashing: Hashing<K>, probe: K, gone: K -> bool, noHash: bool)
    ensures Without(s, Reach(hashing, probe, (i: Item<K, V>) => gone(i.key), noHash))
         == Without(s, (i: Item<K, V>) => KeyReached(hashing, probe, gone, noHash)(i.key))
  {
    hide Without;
    var one := Reach(hashing, probe, (i: Item<K, V>) => gone(i.key), noHash);
    var other := (i: Item<K, V>) => KeyReached(hashing, probe, gone, noHash)(i.key);
    forall i | 0 <= i < |s|
      ensures one(s[i]) == other(s[i])
    {
      var kr := KeyReached(hashing, probe, gone, noHash);
      assert other(s[i]) == kr(s[i].key);
      if noHash || hashing.Unhashed? {
        assert kr(s[i].key) == gone(s[i].key);
      } else {
        var h := hashing.hash;
        assert kr(s[i].key) == (gone(s[i].key) && h(s[i].key) == h(probe));
        assert one(s[i]) == (gone(s[i].key) && h(s[i].key) == h(probe));
      }
    }
    WithoutSame(s, one, other);
  }

  /** An invalidation by key reaches an item by its key alone. */
  ghost function KeyReached<K>(hashing: Hashing<K>, probe: K, gone: K -> bool, noHash: bool): K -> bool {
    if noHash || hashing.Unhashed? then gone
    else var h := hashing.hash; (k: K) => gone(k) && h(k) == h(probe)
  }

  /** The key is new to the small cache and found in the big one, behind what the small one holds. */
  lemma FrontLeads<K, V>(a: seq<Item<K, V>>, b: seq<Item<K, V>>, k: nat, item: Item<K, V>, m: nat)
    requires 0 < m && Leads(a, b) && |a| <= m && k < |b| && b[k].key == item.key && !HasKey(a, item.key)
    ensures Leads([item] + Bounded(a, m - 1), [b[k]] + RemoveAt(b, k))
  {
    assert k >= |a|;
    var y := RemoveAt(b, k);
    assert forall i | 0 <= i < |y| :: y[i] == if i < k then b[i] else b[i + 1];
  }

  lemma UseLeads<K, V>(a: seq<Item<K, V>>, b: seq<Item<K, V>>, item: Item<K, V>, m: nat, n: nat, hashing: Hashing<K>)
    requires 0 < m <= n && Leads(a, b) && UniqueKeys(a) && UniqueKeys(b) && |a| <= m && |b| <= n
    ensures Leads(Accessed(a, Use(item), m, hashing), Accessed(b, Use(item), n, hashing))
  {
    hide Without, Reach, OfKey, Touched, RemoveAt;
    if HasKey(a, item.key) {
      var k :| 0 <= k < |a| && a[k].key == item.key;
      assert b[k].key == item.key && HasKey(b, item.key);
      TouchedAt(a, k);
      TouchedAt(b, k);
      TouchLeads(a, b, k);
    } else if HasKey(b, item.key) {
      var k :| 0 <= k < |b| && b[k].key == item.key;
      TouchedAt(b, k);
      FrontLeads(a, b, k, item, m);
    } else {
      assert Leads(Bounded(a, m - 1), Bounded(b, n - 1));
    }
  }

  /** One access keeps the contents of a small cache the first part of those of a big one. */
  lemma AccessLeads<K, V>(a: seq<Item<K, V>>, b: seq<Item<K, V>>, access: Access<K, V>, m: nat, n: nat, hashing: Hashing<K>)
    requires 0 < m <= n && Leads(a, b) && UniqueKeys(a) && UniqueKeys(b) && |a| <= m && |b| <= n
    ensures Leads(Accessed(a, access, m, hashing), Accessed(b, access, n, hashing))
  {
    hide Leads, Without, UniqueKeys, Touched, Entered, HasKey;
    match access {
      case Use(item) => UseLeads(a, b, item, m, n, hashing);
      case Drop(probe, gone, noHash) =>
        ReachByKey(a, hashing, probe, gone, noHash);
        ReachByKey(b, hashing, probe, gone, noHash);
        WithoutLeads(a, b, KeyReached(hashing, probe, gone, noHash));
      case Forget(key) =>
        var same := (k: K) => k == key;
        WithoutSame(a, OfKey(key), (i: Item<K, V>) => same(i.key));
        WithoutSame(b, OfKey(key), (i: Item<K, V>) => same(i.key));
        WithoutLeads(a, b, same);
    }
  }

  /**
   The inclusion property of LRU caching, over every run of accesses from an empty cache: the
   smaller cache holds the most recent keys of the bigger one, so whatever it finds the bigger
   one finds as well.
   */
  lemma {:induction false} Inclusion<K, V>(accesses: seq<Access<K, V>>, m: nat, n: nat, hashing: Hashing<K>)
    requires 0 < m <= n
    ensures Leads(Run([], AllCalls(accesses), m, hashing), Run([], AllCalls(accesses), n, hashing))
    decreases |accesses|
  {
    hide Leads, Run, Accessed, Calls, UniqueKeys;
    if accesses == [] {
      InclusionStart<K, V>(m, n, hashing);
    } else {
      var before, last := accesses[..|accesses| - 1], accesses[|accesses| - 1];
      Inclusion(before, m, n, hashing);
      NoneUnique<K, V>();
      RunKeeps([], AllCalls(before), m, hashing);
      RunKeeps([], AllCalls(before), n, hashing);
      RunAccess([], AllCalls(before), last, m, hashing);
      RunAccess([], AllCalls(before), last, n, hashing);
      AccessLeads(Run([], AllCalls(before), m, hashing), Run([], AllCalls(before), n, hashing), last, m, n, hashing);
    }
  }

  lemma InclusionStart<K, V>(m: nat, n: nat, hashing: Hashing<K>)
    requires 0 < m <= n
    ensures Leads(Run<K, V>([], [], m, hashing), Run<K, V>([], [], n, hashing))
  {
  }

  lemma NoneUnique<K, V>()
    ensures UniqueKeys<K, V>([])
  {
  }

  // ----- exactly when a single call keeps the inclusion

  /** Two caches of at most `m` and `n` items, the small one with the first keys of the big one. */
  ghost predicate Nested<K, V>(a: seq<Item<K, V>>, b: seq<Item<K, V>>, m: nat, n: nat) {
    0 < m <= n && Leads(a, b) && UniqueKeys(a) && UniqueKeys(b) && |a| <= m && |b| <= n
  }

  lemma KnownInBoth<K, V>(a: seq<Item<K, V>>, b: seq<Item<K, V>>, key: K)
    requires Leads(a, b) && HasKey(a, key)
    ensures HasKey(b, key)
  {
    var i :| 0 <= i < |a| && a[i].key == key;
    assert b[i].key == key;
  }

  /** A look-up keeps it unless the big cache alone has the key and so moves it before all of the small one. */
  lemma FetchExact<K, V>(a: seq<Item<K, V>>, b: seq<Item<K, V>>, key: K, m: nat, n: nat)
    requires Nested(a, b, m, n)
    ensures Leads(Touched(a, key), Touched(b, key)) <==> a == [] || HasKey(a, key) || !HasKey(b, key)
  {
    hide Touched, RemoveAt, UniqueKeys;
    TouchedHas(a, key);
    TouchedHas(b, key);
    if HasKey(a, key) {
      var k :| 0 <= k < |a| && a[k].key == key;
      TouchedAt(a, k);
      TouchedAt(b, k);
      TouchLeads(a, b, k);
    } else if HasKey(b, key) {
      var k :| 0 <= k < |b| && b[k].key == key;
      TouchedAt(b, k);
      assert Touched(b, key)[0].key == key;
      assert a != [] ==> a[0].key != key;
    }
  }

  /** Entering keeps it unless the big cache alone has the key, and not at the head above an empty small one. */
  lemma EnterExact<K, V>(a: seq<Item<K, V>>, b: seq<Item<K, V>>, x: Item<K, V>, m: nat, n: nat, hashing: Hashing<K>)
    requires Nested(a, b, m, n)
    ensures Leads(Apply(a, Enter(x), m, hashing), Apply(b, Enter(x), n, hashing))
            <==> HasKey(a, x.key) || !HasKey(b, x.key) || (a == [] && b[0].key == x.key)
  {
    hide UniqueKeys;
    if HasKey(a, x.key) {
      KnownInBoth(a, b, x.key);
    } else if HasKey(b, x.key) {
      var e := Entered(a, x, m);
      assert e[0] == x && |e| >= 1;
      assert a != [] ==> b[0].key == a[0].key;
      assert b != [];
      assert a == [] ==> e == [x];
    } else {
      assert Leads(Bounded(a, m - 1), Bounded(b, n - 1));
    }
  }

  /** Up to `i` the same places go from both, and from there on all of the small cache. */
  ghost predicate SameUpTo<K, V>(a: seq<Item<K, V>>, b: seq<Item<K, V>>, gone: Item<K, V> -> bool, i: nat) {
    && i <= |a| <= |b|
    && (forall j | 0 <= j < i :: gone(a[j]) == gone(b[j]))
    && (forall j | i <= j < |a| :: gone(a[j]))
  }

  /** Which items go is the same in both caches, but for a rest of the small one that goes as a whole. */
  ghost predicate GoTogether<K, V>(a: seq<Item<K, V>>, b: seq<Item<K, V>>, gone: Item<K, V> -> bool) {
    exists i: nat :: SameUpTo(a, b, gone, i)
  }

  lemma UniqueFirst<K, V>(s: seq<Item<K, V>>)
    requires UniqueKeys(s) && s != []
    ensures UniqueKeys(s[..|s| - 1]) && !HasKey(s[..|s| - 1], s[|s| - 1].key)
  {
  }

  /** An item added behind does not help: its key is not among those of the small cache. */
  lemma LeadsShort<K, V>(a: seq<Item<K, V>>, b: seq<Item<K, V>>, y: Item<K, V>)
    requires !HasKey(a, y.key)
    ensures Leads(a, b + [y]) <==> Leads(a, b)
  {
    assert (b + [y])[|b|] == y;
    assert |a| > |b| ==> a[|b|].key != y.key;
    assert |a| <= |b| ==> forall i | 0 <= i < |a| :: (b + [y])[i] == b[i];
  }

  /** The last item of the small cache is found only behind all that the big one has before it. */
  lemma LeadsLast<K, V>(a: seq<Item<K, V>>, b: seq<Item<K, V>>, x: Item<K, V>, y: Item<K, V>)
    requires x.key == y.key && !HasKey(b, y.key)
    ensures !Leads(a + [x], b)
    ensures Leads(a + [x], b + [y]) <==> Leads(a, b) && |a| == |b|
  {
    var p := |a|;
    assert (a + [x])[p] == x;
    assert p < |b| ==> b[p].key != y.key && (b + [y])[p] == b[p];
    assert p <= |b| ==> forall i | 0 <= i < p :: (a + [x])[i] == a[i] && (b + [y])[i] == b[i];
  }

  lemma {:induction false} WithoutAll<T>(s: seq<T>, gone: T -> bool)
    ensures Without(s, gone) == [] <==> forall i | 0 <= i < |s| :: gone(s[i])
  {
    if s != [] { WithoutAll(s[..|s| - 1], gone); }
  }

  lemma {:induction false} SameSize<K, V>(a: seq<Item<K, V>>, b: seq<Item<K, V>>, gone: Item<K, V> -> bool)
    requires |a| == |b| && forall j | 0 <= j < |a| :: gone(a[j]) == gone(b[j])
    ensures |Without(a, gone)| == |Without(b, gone)|
  {
    if a != [] { SameSize(a[..|a| - 1], b[..|b| - 1], gone); }
  }

  /** Caches of one length that lose as many items lose them at the same places. */
  lemma AllTogether<K, V>(a: seq<Item<K, V>>, b: seq<Item<K, V>>, gone: Item<K, V> -> bool, i: nat)
    requires |a| == |b| && SameUpTo(a, b, gone, i) && |Without(a, gone)| == |Without(b, gone)|
    ensures forall j | 0 <= j < |a| :: gone(a[j]) == gone(b[j])
  {
    hide Without;
    assert a == a[..i] + a[i..] && b == b[..i] + b[i..];
    WithoutAppend(a[..i], a[i..], gone);
    WithoutAppend(b[..i], b[i..], gone);
    SameSize(a[..i], b[..i], gone);
    WithoutAll(a[i..], gone);
    WithoutAll(b[i..], gone);
    assert forall j | i <= j < |b| :: b[j] == b[i..][j - i];
  }

  /** An invalidation keeps it exactly if the same items go, but for a rest of the small cache. */
  lemma {:induction false} WithoutExact<K, V>(a: seq<Item<K, V>>, b: seq<Item<K, V>>, gone: Item<K, V> -> bool)
    requires Leads(a, b) && UniqueKeys(a) && UniqueKeys(b)
    ensures Leads(Without(a, gone), Without(b, gone)) <==> GoTogether(a, b, gone)
    decreases |b|
  {
    hide UniqueKeys, GoTogether;
    if b == [] {
      NoneTogether(a, b, gone);
    } else {
      UniqueFirst(b);
      var b', y := b[..|b| - 1], b[|b| - 1];
      if |a| < |b| {
        WithoutExact(a, b', gone);
        MoreBehind(a, b, gone);
        KeysOf(a, b', gone, y.key);
        LeadsShort(Without(a, gone), Without(b', gone), y);
      } else {
        UniqueFirst(a);
        LastExact(a, b, gone);
      }
    }
  }

  lemma NoneTogether<K, V>(a: seq<Item<K, V>>, b: seq<Item<K, V>>, gone: Item<K, V> -> bool)
    requires Leads(a, b) && b == []
    ensures GoTogether(a, b, gone)
  {
    assert SameUpTo(a, b, gone, 0);
  }

  lemma MoreBehind<K, V>(a: seq<Item<K, V>>, b: seq<Item<K, V>>, gone: Item<K, V> -> bool)
    requires |a| < |b|
    ensures GoTogether(a, b, gone) <==> GoTogether(a, b[..|b| - 1], gone)
  {
    var b' := b[..|b| - 1];
    if GoTogether(a, b, gone) {
      var i: nat :| SameUpTo(a, b, gone, i);
      assert SameUpTo(a, b', gone, i);
    }
    if GoTogether(a, b', gone) {
      var i: nat :| SameUpTo(a, b', gone, i);
      assert forall j | 0 <= j < i :: b[j] == b'[j];
      assert SameUpTo(a, b, gone, i);
    }
  }

  /** What is left of the small cache has no key beyond those of the big one. */
  lemma KeysOf<K, V>(a: seq<Item<K, V>>, b: seq<Item<K, V>>, gone: Item<K, V> -> bool, key: K)
    requires Leads(a, b) && UniqueKeys(a) && !HasKey(b, key)
    ensures !HasKey(Without(a, gone), key)
  {
    hide UniqueKeys, Without;
    WithoutUnique(a, gone);
    if HasKey(Without(a, gone), key) { KnownInBoth(a, b, key); }
  }

  lemma LastExact<K, V>(a: seq<Item<K, V>>, b: seq<Item<K, V>>, gone: Item<K, V> -> bool)
    requires Leads(a, b) && |a| == |b| > 0 && UniqueKeys(a) && UniqueKeys(b)
    requires UniqueKeys(a[..|a| - 1]) && UniqueKeys(b[..|b| - 1]) && !HasKey(b[..|b| - 1], b[|b| - 1].key)
    ensures Leads(Without(a, gone), Without(b, gone)) <==> GoTogether(a, b, gone)
    decreases |b|, 0
  {
    hide UniqueKeys, GoTogether;
    var a', x, b', y := a[..|a| - 1], a[|a| - 1], b[..|b| - 1], b[|b| - 1];
    WithoutExact(a', b', gone);
    KeysOf(b', b', gone, y.key);
    if gone(x) {
      RestGoes(a, b, gone);
      KeysOf(a', b', gone, y.key);
      LeadsShort(Without(a', gone), Without(b', gone), y);
    } else {
      RestStays(a, b, gone);
      LeadsLast(Without(a', gone), Without(b', gone), x, y);
    }
  }

  lemma RestGoes<K, V>(a: seq<Item<K, V>>, b: seq<Item<K, V>>, gone: Item<K, V> -> bool)
    requires |a| == |b| > 0 && gone(a[|a| - 1])
    ensures GoTogether(a, b, gone) <==> GoTogether(a[..|a| - 1], b[..|b| - 1], gone)
  {
    var a', b' := a[..|a| - 1], b[..|b| - 1];
    if GoTogether(a, b, gone) {
      var i: nat :| SameUpTo(a, b, gone, i);
      assert SameUpTo(a', b', gone, if i < |a| then i else |a'|);
    }
    if GoTogether(a', b', gone) {
      var i: nat :| SameUpTo(a', b', gone, i);
      assert forall j | i <= j < |a| :: gone(a[j]) by {
        assert forall j | i <= j < |a'| :: a[j] == a'[j];
      }
      assert forall j | 0 <= j < i :: a[j] == a'[j] && b[j] == b'[j];
      assert SameUpTo(a, b, gone, i);
    }
  }

  lemma RestStays<K, V>(a: seq<Item<K, V>>, b: seq<Item<K, V>>, gone: Item<K, V> -> bool)
    requires |a| == |b| > 0 && !gone(a[|a| - 1])
    ensures GoTogether(a, b, gone) <==>
              !gone(b[|b| - 1]) && GoTogether(a[..|a| - 1], b[..|b| - 1], gone)
              && |Without(a[..|a| - 1], gone)| == |Without(b[..|b| - 1], gone)|
  {
    hide Without;
    var a', b' := a[..|a| - 1], b[..|b| - 1];
    if GoTogether(a, b, gone) {
      var i: nat :| SameUpTo(a, b, gone, i);
      assert i == |a|;
      assert SameUpTo(a', b', gone, |a'|);
      SameSize(a', b', gone);
    }
    if !gone(b[|b| - 1]) && GoTogether(a', b', gone) && |Without(a', gone)| == |Without(b', gone)| {
      var i: nat :| SameUpTo(a', b', gone, i);
      AllTogether(a', b', gone, i);
      assert forall j | 0 <= j < |a'| :: a[j] == a'[j] && b[j] == b'[j];
      assert SameUpTo(a, b, gone, |a|);
    }
  }

  lemma RemoveTogether<K, V>(a: seq<Item<K, V>>, b: seq<Item<K, V>>, key: K)
    requires Leads(a, b)
    ensures GoTogether(a, b, OfKey(key))
  {
    assert SameUpTo(a, b, OfKey(key), |a|);
  }

  /** What each call wants, to be told from the contents before it. */
  ghost predicate Kept<K, V>(a: seq<Item<K, V>>, b: seq<Item<K, V>>, op: Op<K, V>, hashing: Hashing<K>) {
    match op
    case Fetch(key) => a == [] || HasKey(a, key) || !HasKey(b, key)
    case Enter(x) => HasKey(a, x.key) || !HasKey(b, x.key) || (a == [] && b[0].key == x.key)
    case Invalidate(probe, gone, noHash) => GoTogether(a, b, Reach(hashing, probe, gone, noHash))
    case Remove(_) => true
  }

  /** A call keeps the inclusion exactly under its condition. */
  lemma CallExact<K, V>(a: seq<Item<K, V>>, b: seq<Item<K, V>>, op: Op<K, V>, m: nat, n: nat, hashing: Hashing<K>)
    requires Nested(a, b, m, n)
    ensures Leads(Apply(a, op, m, hashing), Apply(b, op, n, hashing)) <==> Kept(a, b, op, hashing)
  {
    hide Leads, UniqueKeys, Touched, Entered, HasKey, Without, GoTogether, Reach, OfKey;
    match op {
      case Fetch(key) => FetchExact(a, b, key, m, n);
      case Enter(x) => EnterExact(a, b, x, m, n, hashing);
      case Invalidate(probe, gone, noHash) => WithoutExact(a, b, Reach(hashing, probe, gone, noHash));
      case Remove(key) =>
        RemoveTogether(a, b, key);
        WithoutExact(a, b, OfKey(key));
    }
  }

  /** The small cache has the first keys of the big one after each of the first `k` calls. */
  ghost predicate IncludedTo<K, V>(ops: seq<Op<K, V>>, k: nat, m: nat, n: nat, hashing: Hashing<K>)
    requires 0 < m <= n && k <= |ops|
  {
    forall j | 0 <= j <= k :: Leads(Run([], ops[..j], m, hashing), Run([], ops[..j], n, hashing))
  }

  /** Each of the first `k` calls meets its condition when it is made. */
  ghost predicate KeptTo<K, V>(ops: seq<Op<K, V>>, k: nat, m: nat, n: nat, hashing: Hashing<K>)
    requires 0 < m <= n && k <= |ops|
  {
    forall j | 0 <= j < k :: Kept(Run([], ops[..j], m, hashing), Run([], ops[..j], n, hashing), ops[j], hashing)
  }

  /** Over every run of calls the inclusion holds throughout exactly if every call meets its condition. */
  lemma {:induction false} RunExact<K, V>(ops: seq<Op<K, V>>, k: nat, m: nat, n: nat, hashing: Hashing<K>)
    requires 0 < m <= n && k <= |ops|
    ensures IncludedTo(ops, k, m, n, hashing) <==> KeptTo(ops, k, m, n, hashing)
    decreases k
  {
    hide Leads, Run, Kept, UniqueKeys;
    if k == 0 {
      assert ops[..0] == [];
      InclusionStart<K, V>(m, n, hashing);
    } else {
      RunExact(ops, k - 1, m, n, hashing);
      var before, op := ops[..k - 1], ops[k - 1];
      assert ops[..k] == before + [op];
      NoneUnique<K, V>();
      RunKeeps([], before, m, hashing);
      RunKeeps([], before, n, hashing);
      RunMore([], before, op, m, hashing);
      RunMore([], before, op, n, hashing);
      var a, b := Run([], before, m, hashing), Run([], before, n, hashing);
      if Leads(a, b) { CallExact(a, b, op, m, n, hashing); }
    }
  }

  /** A run in which entering without a look-up breaks the inclusion: the big cache does not note the use. */
  lemma EnterAlone(a: Item<int, int>, b: Item<int, int>, c: Item<int, int>)
    requires a.key != b.key && b.key != c.key && a.key != c.key
    ensures var ops := [Enter(a), Enter(b), Enter(c), Enter(a)];
            !Leads(Run([], ops, 2, Unhashed), Run([], ops, 3, Unhashed))
  {
    hide Run;
    RunFour(Enter(a), Enter(b), Enter(c), Enter(a), 2);
    RunFour(Enter(a), Enter(b), Enter(c), Enter(a), 3);
    FillTwo(a, b, c);
    FillThree(a, b, c);
    assert [c, b, a][2].key == a.key;
    EnterExact([c, b], [c, b, a], a, 2, 3, Unhashed);
  }

  /** So does a look-up without entering after a miss: the small cache does not note the use. */
  lemma FetchAlone(a: Item<int, int>, b: Item<int, int>, c: Item<int, int>)
    requires a.key != b.key && b.key != c.key && a.key != c.key
    ensures var ops := [Enter(a), Enter(b), Enter(c), Fetch(a.key)];
            !Leads(Run([], ops, 2, Unhashed), Run([], ops, 3, Unhashed))
  {
    hide Run, Touched;
    RunFour(Enter(a), Enter(b), Enter(c), Fetch(a.key), 2);
    RunFour(Enter(a), Enter(b), Enter(c), Fetch(a.key), 3);
    FillTwo(a, b, c);
    FillThree(a, b, c);
    assert [c, b, a][2].key == a.key;
    FetchExact([c, b], [c, b, a], a.key, 2, 3);
  }

  lemma RunFour(o1: Op<int, int>, o2: Op<int, int>, o3: Op<int, int>, o4: Op<int, int>, size: nat)
    requires size > 0
    ensures Run([], [o1, o2, o3, o4], size, Unhashed)
         == Apply(Apply(Apply(Apply([], o1, size, Unhashed), o2, size, Unhashed), o3, size, Unhashed), o4, size, Unhashed)
  {
    hide Apply;
    var none: seq<Op<int, int>> := [];
    assert none + [o1] == [o1] && [o1] + [o2] == [o1, o2] && [o1, o2] + [o3] == [o1, o2, o3]
        && [o1, o2, o3] + [o4] == [o1, o2, o3, o4];
    assert Run([], none, size, Unhashed) == [];
    RunMore([], none, o1, size, Unhashed);
    RunMore([], [o1], o2, size, Unhashed);
    RunMore([], [o1, o2], o3, size, Unhashed);
    RunMore([], [o1, o2, o3], o4, size, Unhashed);
  }

  lemma EnterNew(s: seq<Item<int, int>>, x: Item<int, int>, size: nat)
    requires size > 0 && forall i | 0 <= i < |s| :: s[i].key != x.key
    ensures Apply(s, Enter(x), size, Unhashed) == [x] + if |s| > size - 1 then s[..size - 1] else s
  {
  }

  lemma FillTwo(a: Item<int, int>, b: Item<int, int>, c: Item<int, int>)
    requires a.key != b.key && b.key != c.key && a.key != c.key
    ensures Apply(Apply(Apply([], Enter(a), 2, Unhashed), Enter(b), 2, Unhashed), Enter(c), 2, Unhashed) == [c, b]
  {
    hide Apply;
    EnterNew([], a, 2);
    assert [a] + [] == [a];
    EnterNew([a], b, 2);
    assert [b] + [a] == [b, a];
    EnterNew([b, a], c, 2);
    assert [c] + [b, a][..1] == [c, b];
  }

  lemma FillThree(a: Item<int, int>, b: Item<int, int>, c: Item<int, int>)
    requires a.key != b.key && b.key != c.key && a.key != c.key
    ensures Apply(Apply(Apply([], Enter(a), 3, Unhashed), Enter(b), 3, Unhashed), Enter(c), 3, Unhashed) == [c, b, a]
  {
    hide Apply;
    EnterNew([], a, 3);
    assert [a] + [] == [a];
    EnterNew([a], b, 3);
    assert [b] + [a] == [b, a];
    EnterNew([b, a], c, 3);
    assert [c] + [b, a] == [c, b, a];
  }
}
