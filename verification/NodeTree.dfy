/**
 The nodes of the inode table as a reference-counted tree.  Only allocated nodes are in the
 map, so a pointer to a freed node is a key that the map does not have.
 */
module NodeTree {
  import opened Sequences
  import opened NodeChains

  datatype Node = Node(nodeid: nat, generation: nat, refctr: int, parent: int, name: Option<string>, nlookup: nat)

  type Nodes = map<int, Node>

  const ROOT_ID: nat := 1

  ghost function Children(node: Nodes, p: int): set<int> {
    set q | q in node && node[q].parent == p
  }

  /** A node below the root has a name exactly as long as it has a parent. */
  ghost predicate Placed(node: Nodes, root: int, p: int)
    requires p in node
  {
    && p >= 0
    && (node[p].parent != NIL ==> node[p].parent in node && node[p].name.Some? && p != root)
    && (node[p].parent == NIL && p != root ==> node[p].name.None?)
  }

  ghost predicate Shaped(node: Nodes, root: int) {
    && root in node && node[root].nodeid == ROOT_ID && node[root].parent == NIL
    && forall p | p in node :: Placed(node, root, p)
  }

  ghost predicate UniqueIds(node: Nodes) {
    forall p, q | p in node && q in node && node[p].nodeid == node[q].nodeid :: p == q
  }

  /** No directory has two entries of one name. */
  ghost predicate UniqueNames(node: Nodes) {
    forall p, q | p in node && q in node && node[p].parent == node[q].parent != NIL && node[p].name == node[q].name :: p == q
  }

  /** The reference count of `p`: its children, and one for the looked-up nodes. */
  ghost predicate CountIs(node: Nodes, held: set<int>, p: int)
    requires p in node
  {
    && node[p].refctr == |Children(node, p)| + (if p in held then 1 else 0)
    && node[p].refctr > 0
    && (p !in held ==> node[p].parent == NIL)
  }

  ghost predicate Counted(node: Nodes, root: int, held: set<int>) {
    && root in held && held <= node.Keys
    && forall p | p in node :: CountIs(node, held, p)
  }

  /** Every node is nearer to the top than its children: there is no cycle. */
  ghost predicate Ranked(node: Nodes, rank: map<int, nat>) {
    && node.Keys <= rank.Keys
    && forall p | p in node && node[p].parent in node :: rank[node[p].parent] < rank[p]
  }

  ghost predicate Tree(node: Nodes, root: int, held: set<int>, rank: map<int, nat>) {
    Shaped(node, root) && UniqueIds(node) && UniqueNames(node) && Counted(node, root, held) && Ranked(node, rank)
  }

  // ----- dropping a reference

  /** unref_node: the node goes with its last reference. */
  function Unref(node: Nodes, q: int): Nodes
    requires q in node
  {
    if node[q].refctr == 1 then node - {q} else node[q := node[q].(refctr := node[q].refctr - 1)]
  }

  /** unhash_name, as far as the tree is concerned. */
  function Detached(node: Nodes, p: int): Nodes
    requires p in node && node[p].parent in node
  {
    Unref(node, node[p].parent)[p := node[p].(name := None, parent := NIL)]
  }

  /** A parent that loses its last reference had only this child, and is itself nameless. */
  lemma LastChild(node: Nodes, root: int, held: set<int>, rank: map<int, nat>, p: int)
    requires Tree(node, root, held, rank) && p in node && node[p].parent != NIL
    ensures node[p].parent in node && node[p].parent != p && node[p].parent != NIL
    ensures var q := node[p].parent;
            node[q].refctr > 0 &&
            (node[q].refctr == 1 ==> q !in held && node[q].parent == NIL && q != root && node[q].name.None?
                                     && Children(node, q) == {p})
  {
    assert Placed(node, root, p);
    var q := node[p].parent;
    assert CountIs(node, held, q);
    assert p in Children(node, q);
    if node[q].refctr == 1 {
      assert {p} <= Children(node, q);
      CardinalityOne(Children(node, q), p);
      assert Placed(node, root, q);
    }
  }

  lemma CardinalityOne<T>(s: set<T>, x: T)
    requires x in s
    ensures |s| >= 1 && (|s| == 1 ==> s == {x})
  {
    assert s == {x} + (s - {x});
  }

  lemma DetachedChildren(node: Nodes, p: int, q: int)
    requires p in node && q in node && node[p].parent == q != NIL && p != q
    ensures Children(node[q := node[q].(refctr := node[q].refctr - 1)][p := node[p].(name := None, parent := NIL)], q)
            == Children(node, q) - {p}
  {
  }

  lemma DetachedCount(node: Nodes, root: int, held: set<int>, rank: map<int, nat>, p: int, x: int)
    requires Tree(node, root, held, rank) && p in node && node[p].parent != NIL
    ensures node[p].parent in node
    ensures x in Detached(node, p) ==> CountIs(Detached(node, p), held, x)
  {
    hide UniqueIds, UniqueNames, Ranked;
    LastChild(node, root, held, rank, p);
    var q, node' := node[p].parent, Detached(node, p);
    if x in node' {
      assert CountIs(node, held, x);
      if x == q {
        assert node[q].refctr != 1 && node' == node[q := node[q].(refctr := node[q].refctr - 1)][p := node[p].(name := None, parent := NIL)];
        DetachedChildren(node, p, q);
        CardinalityOne(Children(node, q), p);
      } else {
        assert Children(node', x) == Children(node, x);
      }
      assert p in held by { assert CountIs(node, held, p); }
    }
  }

  lemma DetachedTree(node: Nodes, root: int, held: set<int>, rank: map<int, nat>, p: int)
    requires Tree(node, root, held, rank) && p in node && node[p].parent != NIL
    ensures node[p].parent in node && Tree(Detached(node, p), root, held, rank)
    ensures p in Detached(node, p) && p != root
  {
    hide CountIs;
    LastChild(node, root, held, rank, p);
    var node' := Detached(node, p);
    assert Placed(node, root, p);
    forall x | x in node'
      ensures CountIs(node', held, x)
    {
      DetachedCount(node, root, held, rank, p, x);
    }
    forall x | x in node'
      ensures Placed(node', root, x)
    {
      assert Placed(node, root, x);
      assert x in Children(node, node[x].parent);
    }
  }

  // ----- giving up the lookups of a nameless node

  lemma ReleasedTree(node: Nodes, root: int, held: set<int>, rank: map<int, nat>, p: int)
    requires Tree(node, root, held, rank) && p in held && p != root && node[p].parent == NIL
    ensures p in node && node[p].refctr > 0 && node[p].name.None?
    ensures Tree(Unref(node, p), root, held - {p}, rank)
  {
    hide CountIs;
    assert Placed(node, root, p);
    assert CountIs(node, held, p);
    CountFacts(node, held, p);
    var node' := Unref(node, p);
    forall x | x in node'
      ensures Placed(node', root, x) && CountIs(node', held - {p}, x)
    {
      assert Placed(node, root, x);
      assert CountIs(node, held, x);
      assert x in Children(node, node[x].parent);
      ReleasedCount(node, held, p, x);
    }
  }

  lemma CountFacts(node: Nodes, held: set<int>, p: int)
    requires p in node && p in held && CountIs(node, held, p)
    ensures node[p].refctr > 0 && (node[p].refctr == 1 ==> Children(node, p) == {})
  {
  }

  lemma ReleasedCount(node: Nodes, held: set<int>, p: int, x: int)
    requires p in node && p in held && x in node && CountIs(node, held, x) && CountIs(node, held, p)
    requires node[p].parent == NIL && x in Unref(node, p)
    requires x >= 0
    ensures CountIs(Unref(node, p), held - {p}, x)
  {
    var node' := Unref(node, p);
    assert Children(node', x) == Children(node, x);
  }

  // ----- a new node, and a name for it

  /** A node just allocated by find_node, before it has a name. */
  lemma FreshTree(node: Nodes, root: int, held: set<int>, rank: map<int, nat>, p: int, n: Node)
    requires Tree(node, root, held, rank) && p !in node && p >= 0
    requires n.refctr == 1 && n.parent == NIL && n.name.None? && forall q | q in node :: node[q].nodeid != n.nodeid
    ensures Tree(node[p := n], root, held + {p}, rank[p := 0])
  {
    hide CountIs;
    var node' := node[p := n];
    forall x | x in node'
      ensures Placed(node', root, x) && CountIs(node', held + {p}, x)
    {
      if x != p { assert Placed(node, root, x); assert CountIs(node, held, x); }
      FreshCount(node, root, held, p, n, x);
    }
    forall x | x in node' && node'[x].parent in node'
      ensures x != p && node'[x].parent != p
    {
      if x != p { assert Placed(node, root, x); }
    }
  }

  lemma FreshCount(node: Nodes, root: int, held: set<int>, p: int, n: Node, x: int)
    requires Shaped(node, root) && p !in node && p >= 0 && held <= node.Keys
    requires n.refctr == 1 && n.parent == NIL
    requires x == p || (x in node && CountIs(node, held, x))
    ensures CountIs(node[p := n], held + {p}, x)
  {
    var node' := node[p := n];
    if x == p {
      forall q | q in node'
        ensures node'[q].parent != p
      {
        if q != p { assert Placed(node, root, q); }
      }
      assert Children(node', p) == {};
    } else {
      assert x >= 0 by { assert Placed(node, root, x); }
      assert Children(node', x) == Children(node, x);
    }
  }

  /** hash_name, as far as the tree is concerned. */
  function Attached(node: Nodes, p: int, d: int, name: string): Nodes
    requires p in node && d in node
  {
    node[d := node[d].(refctr := node[d].refctr + 1)][p := node[p].(name := Some(name), parent := d)]
  }

  /** Whether `q` is `p` or below it. */
  ghost predicate Under(node: Nodes, rank: map<int, nat>, q: int, p: int)
    requires Ranked(node, rank) && q in node
    decreases rank[q]
  {
    q == p || (node[q].parent in node && Under(node, rank, node[q].parent, p))
  }

  /** The levels after `p` has been put below `d`. */
  ghost function Reranked(node: Nodes, rank: map<int, nat>, p: int, d: int): map<int, nat>
    requires Ranked(node, rank) && d in node
  {
    map q | q in node :: if Under(node, rank, q, p) then rank[q] + rank[d] + 1 else rank[q]
  }

  lemma AttachedCount(node: Nodes, root: int, held: set<int>, p: int, d: int, name: string, x: int)
    requires p in node && d in node && p != d && p in held && node[p].parent == NIL && d >= 0
    requires x in node && CountIs(node, held, x) && x >= 0
    ensures CountIs(Attached(node, p, d, name), held, x)
  {
    var node' := Attached(node, p, d, name);
    if x == d {
      assert Children(node', d) == Children(node, d) + {p};
      assert p !in Children(node, d);
    } else {
      assert Children(node', x) == Children(node, x);
    }
  }

  lemma AttachedRanked(node: Nodes, rank: map<int, nat>, p: int, d: int, name: string)
    requires Ranked(node, rank) && p in node && d in node && node[p].parent == NIL && !Under(node, rank, d, p) && NIL !in node
    ensures p != d && Ranked(Attached(node, p, d, name), Reranked(node, rank, p, d))
  {
    var node', rank' := Attached(node, p, d, name), Reranked(node, rank, p, d);
    forall q | q in node' && node'[q].parent in node'
      ensures rank'[node'[q].parent] < rank'[q]
    {
      assert Under(node, rank, p, p);
      if q != p {
        assert node'[q].parent == node[q].parent;
        assert Under(node, rank, q, p) <==> Under(node, rank, node[q].parent, p);
      }
    }
  }

  lemma {:induction false} RankUnder(node: Nodes, rank: map<int, nat>, q: int, p: int, d: int, name: string, rank': map<int, nat>)
    requires Ranked(node, rank) && p in node && d in node && q in node && Under(node, rank, q, p)
    requires Ranked(Attached(node, p, d, name), rank')
    ensures p in rank' && q in rank' && rank'[p] <= rank'[q]
    decreases rank[q]
  {
    var node' := Attached(node, p, d, name);
    assert node'.Keys == node.Keys;
    if q != p {
      RankUnder(node, rank, node[q].parent, p, d, name, rank');
      assert node'[q].parent == node[q].parent;
    }
  }

  /** Putting `p` below `d` leaves the tree without a cycle exactly if `d` is not `p` or below it. */
  lemma AttachedAcyclic(node: Nodes, rank: map<int, nat>, p: int, d: int, name: string)
    requires Ranked(node, rank) && p in node && d in node && node[p].parent == NIL && NIL !in node
    ensures (exists rank' :: Ranked(Attached(node, p, d, name), rank')) <==> !Under(node, rank, d, p)
  {
    if Under(node, rank, d, p) {
      forall rank'
        ensures !Ranked(Attached(node, p, d, name), rank')
      {
        Cyclic(node, rank, p, d, name, rank');
      }
    } else {
      AttachedRanked(node, rank, p, d, name);
    }
  }

  lemma Cyclic(node: Nodes, rank: map<int, nat>, p: int, d: int, name: string, rank': map<int, nat>)
    requires Ranked(node, rank) && p in node && d in node && Under(node, rank, d, p)
    ensures !Ranked(Attached(node, p, d, name), rank')
  {
    var node' := Attached(node, p, d, name);
    assert p in node' && node'[p].parent == d && d in node';
    if Ranked(node', rank') {
      RankUnder(node, rank, d, p, d, name, rank');
    }
  }

  lemma AttachedUnique(node: Nodes, root: int, p: int, d: int, name: string)
    requires UniqueIds(node) && UniqueNames(node) && p in node && d in node && p != d
    requires forall q | q in node && node[q].parent == d :: node[q].name != Some(name)
    ensures UniqueIds(Attached(node, p, d, name)) && UniqueNames(Attached(node, p, d, name))
  {
    var node' := Attached(node, p, d, name);
    forall x, y | x in node' && y in node' && node'[x].parent == node'[y].parent != NIL && node'[x].name == node'[y].name
      ensures x == y
    {
      assert x != p ==> node'[x].parent == node[x].parent && node'[x].name == node[x].name;
      assert y != p ==> node'[y].parent == node[y].parent && node'[y].name == node[y].name;
    }
  }

  lemma AttachedTree(node: Nodes, root: int, held: set<int>, rank: map<int, nat>, p: int, d: int, name: string)
    requires Tree(node, root, held, rank) && p in held && p != root && node[p].parent == NIL && d in node
    requires !Under(node, rank, d, p)
    requires forall q | q in node && node[q].parent == d :: node[q].name != Some(name)
    ensures p in node && p != d && Tree(Attached(node, p, d, name), root, held, Reranked(node, rank, p, d))
  {
    hide CountIs, Ranked, Under, UniqueNames, UniqueIds;
    assert Placed(node, root, p) && Placed(node, root, d);
    assert NIL !in node by { assert NIL in node ==> Placed(node, root, NIL); }
    AttachedRanked(node, rank, p, d, name);
    AttachedUnique(node, root, p, d, name);
    var node' := Attached(node, p, d, name);
    forall x | x in node'
      ensures Placed(node', root, x) && CountIs(node', held, x)
    {
      assert Placed(node, root, x);
      assert CountIs(node, held, x);
      AttachedCount(node, root, held, p, d, name, x);
    }
  }

  /** Nothing is below a node that has no children. */
  lemma {:induction false} NothingUnder(node: Nodes, rank: map<int, nat>, q: int, p: int)
    requires Ranked(node, rank) && q in node && q != p && forall x | x in node :: node[x].parent != p
    ensures !Under(node, rank, q, p)
    decreases rank[q]
  {
    if node[q].parent in node { NothingUnder(node, rank, node[q].parent, p); }
  }

  /** Lookup counts do not matter to the tree. */
  lemma RelookedTree(node: Nodes, root: int, held: set<int>, rank: map<int, nat>, p: int, n: nat)
    requires Tree(node, root, held, rank) && p in node
    ensures Tree(node[p := node[p].(nlookup := n)], root, held, rank)
  {
    hide CountIs;
    var node' := node[p := node[p].(nlookup := n)];
    forall x | x in node'
      ensures Placed(node', root, x) && CountIs(node', held, x)
    {
      assert Placed(node, root, x);
      assert CountIs(node, held, x);
      RelookedCount(node, held, p, n, x);
    }
  }

  lemma RelookedCount(node: Nodes, held: set<int>, p: int, n: nat, x: int)
    requires p in node && x in node && CountIs(node, held, x)
    ensures CountIs(node[p := node[p].(nlookup := n)], held, x)
  {
    assert Children(node[p := node[p].(nlookup := n)], x) == Children(node, x);
  }

  // ----- where the two hash tables have to keep the nodes

  ghost function IdHome(node: Nodes, size: nat): map<int, int>
    requires size > 0
  {
    map p | p in node :: node[p].nodeid % size
  }

  /** The chain of a name below a parent. */
  ghost function NameHome(node: Nodes, hash: (nat, string) -> int): map<int, int> {
    map p | p in node && node[p].parent in node && node[p].name.Some? :: hash(node[node[p].parent].nodeid, node[p].name.value)
  }

  lemma DetachedHomes(node: Nodes, root: int, held: set<int>, rank: map<int, nat>, p: int, size: nat, hash: (nat, string) -> int)
    requires Tree(node, root, held, rank) && p in node && node[p].parent != NIL && size > 0
    ensures node[p].parent in node && p in NameHome(node, hash)
    ensures NameHome(Detached(node, p), hash) == NameHome(node, hash) - {p}
    ensures IdHome(Detached(node, p), size) == IdHome(node, size) - (if node[node[p].parent].refctr == 1 then {node[p].parent} else {})
  {
    hide CountIs, UniqueIds, UniqueNames, Ranked, NameHome;
    LastChild(node, root, held, rank, p);
    assert Placed(node, root, p);
    NamedHome(node, p, hash);
    var node', q := Detached(node, p), node[p].parent;
    forall x
      ensures x in NameHome(node', hash) <==> x in NameHome(node, hash) && x != p
      ensures x in NameHome(node, hash) && x != p ==> NameHome(node', hash)[x] == NameHome(node, hash)[x]
    {
      NamedHome(node, x, hash);
      NamedHome(node', x, hash);
      if x in node {
        assert Placed(node, root, x);
        assert x in Children(node, node[x].parent);
      }
    }
  }

  lemma NamedHome(node: Nodes, x: int, hash: (nat, string) -> int)
    ensures x in NameHome(node, hash) <==> x in node && node[x].parent in node && node[x].name.Some?
    ensures x in NameHome(node, hash) ==> NameHome(node, hash)[x] == hash(node[node[x].parent].nodeid, node[x].name.value)
  {
  }

  lemma AttachedHomes(node: Nodes, root: int, p: int, d: int, name: string, size: nat, hash: (nat, string) -> int)
    requires Shaped(node, root) && p in node && d in node && p != d && node[p].parent == NIL && size > 0
    ensures NameHome(Attached(node, p, d, name), hash) == NameHome(node, hash)[p := hash(node[d].nodeid, name)]
    ensures IdHome(Attached(node, p, d, name), size) == IdHome(node, size)
    ensures p !in NameHome(node, hash)
  {
    assert NIL !in node by { assert NIL in node ==> Placed(node, root, NIL); }
  }

  lemma ReleasedHomes(node: Nodes, root: int, held: set<int>, rank: map<int, nat>, p: int, size: nat, hash: (nat, string) -> int)
    requires Tree(node, root, held, rank) && p in held && p != root && node[p].parent == NIL && size > 0
    ensures p in node && p !in NameHome(node, hash)
    ensures NameHome(Unref(node, p), hash) == NameHome(node, hash)
    ensures IdHome(Unref(node, p), size) == IdHome(node, size) - (if node[p].refctr == 1 then {p} else {})
  {
    hide CountIs, UniqueIds, UniqueNames, Ranked, NameHome;
    assert NIL !in node by { assert NIL in node ==> Placed(node, root, NIL); }
    assert CountIs(node, held, p);
    CountFacts(node, held, p);
    NamedHome(node, p, hash);
    var node' := Unref(node, p);
    forall x
      ensures x in NameHome(node', hash) <==> x in NameHome(node, hash)
      ensures x in NameHome(node, hash) ==> NameHome(node', hash)[x] == NameHome(node, hash)[x]
    {
      NamedHome(node, x, hash);
      NamedHome(node', x, hash);
      if x in node {
        assert x in Children(node, node[x].parent);
      }
    }
  }
}
