/**
 The inode table of the FUSE library: nodes reachable by id and by (parent id, name) through
 two chained hash tables, kept alive by lookup counts and by their children.
 */
module InodeTable {
  import opened Sequences
  import opened NodeChains
  import opened NodeTree

  const TABLE_SIZE: nat := 14057
  const UNKNOWN_INO: nat := 0xffffffff
  const WORD: nat := 0x1_0000_0000
  const PAIRS: nat := 0x1_0000_0000_0000_0000

  /** A `char` as the C code adds it to an unsigned int. */
  function CharWord(c: char): nat {
    var v := c as int % 256;
    if v < 128 then v else v + WORD - 256
  }

  function Mixed(hash: nat, name: string): (r: nat)
    requires hash < WORD
    ensures r < WORD
    decreases |name|
  {
    if name == [] then hash
    else Mixed(((hash * 32) % WORD + WORD - hash + CharWord(name[0])) % WORD, name[1..])
  }

  function NameHash(parent: nat, name: string): (h: int)
    ensures 0 <= h < TABLE_SIZE
  {
    var first := if name == [] then 0 else CharWord(name[0]);
    (Mixed(first, if name == [] then [] else name[1..]) + parent) % TABLE_SIZE
  }

  /** The nodes with lookups outstanding: the ones the kernel may name. */
  ghost function Looked(node: Nodes): set<int> {
    set p | p in node && node[p].nlookup > 0
  }

  /** Equal but for the reference count. */
  ghost predicate Alike(a: Node, b: Node) {
    a.(refctr := 0) == b.(refctr := 0)
  }

  /** Nodes outside `changed` are as before, and only nodes without lookups have gone. */
  ghost predicate OthersKept(before: Nodes, after: Nodes, changed: set<int>) {
    && (forall q | q in after && q !in changed :: q in before && Alike(after[q], before[q]))
    && (forall q | q in before && q !in after && q !in changed :: before[q].nlookup == 0)
  }

  /** Node `p` has the id and stands under that parent and name. */
  ghost predicate Named(node: Nodes, p: int, parent: nat, name: string) {
    p in node && node[p].parent in node && node[node[p].parent].nodeid == parent && node[p].name == Some(name)
  }

  /** The id counter is 32 bits wide, and so is the generation, of which `epoch` keeps count. */
  ghost predicate Clock(ctr: nat, generation: nat, epoch: nat) {
    ctr < WORD && generation == epoch % WORD
  }

  /** The place of an id among all ids ever handed out. */
  ghost function StampOf(epoch: nat, ctr: nat): nat {
    epoch * WORD + ctr
  }

  /** The (generation, id) pair a node gets at that place. */
  ghost function PairOf(stamp: nat): (nat, nat) {
    (stamp / WORD % WORD, stamp % WORD)
  }

  /** The places handed out up to `now`, each after the one before. */
  ghost predicate Issued(issued: seq<nat>, now: nat) {
    && (forall i, j | 0 <= i < j < |issued| :: issued[i] < issued[j])
    && (forall i | 0 <= i < |issued| :: issued[i] <= now)
  }

  /** The pair at `now` is none of those handed out in the last 2^64 places. */
  ghost predicate NotReissued(issued: seq<nat>, now: nat) {
    forall i | 0 <= i < |issued| && now - issued[i] < PAIRS :: PairOf(issued[i]) != PairOf(now)
  }

  ghost predicate Unused(node: Nodes, id: nat) {
    forall q | q in node :: node[q].nodeid != id
  }

  /** An id that next_id passes over. */
  ghost predicate Unusable(node: Nodes, id: nat) {
    id == 0 || id == UNKNOWN_INO || !Unused(node, id)
  }

  ghost predicate NameFree(node: Nodes, parent: nat, name: string) {
    forall q :: !Named(node, q, parent, name)
  }

  /** Some node other than those in `except` has the id. */
  ghost predicate Known(node: Nodes, id: nat, except: set<int>) {
    exists d :: d in node && d !in except && node[d].nodeid == id
  }

  /** The node of that id is not below `p`, so that `p` may be put below it. */
  ghost predicate Clear(node: Nodes, rank: map<int, nat>, id: nat, p: int) {
    Ranked(node, rank) && forall q | q in node && node[q].nodeid == id :: !Under(node, rank, q, p)
  }

  /** The links are those of the allocated nodes. */
  ghost predicate OneHeap(idNext: map<int, int>, nameNext: map<int, int>, node: Nodes) {
    idNext.Keys == nameNext.Keys == node.Keys
  }

  /** Every node has its place in the tables, but those in `fresh_` not yet in the id table. */
  ghost predicate Homes(idHome: map<int, int>, nameHome: map<int, int>, node: Nodes, fresh_: set<int>) {
    idHome == IdHome(node, TABLE_SIZE) - fresh_ && nameHome == NameHome(node, NameHash)
  }

  /** What the kernel promises of a forget: no more lookups than there were. */
  ghost predicate MayForget(node: Nodes, id: nat, n: nat) {
    exists q :: q in Looked(node) && node[q].nodeid == id && n <= node[q].nlookup
  }

  /** What the kernel promises of a rename: the new directory is looked up, and not below what is moved. */
  ghost predicate MayMove(node: Nodes, rank: map<int, nat>, olddir: nat, oldname: string, newdir: nat) {
    && (exists d :: d in Looked(node) && node[d].nodeid == newdir)
    && (forall p | Named(node, p, olddir, oldname) :: Clear(node, rank, newdir, p))
  }

  class Table {
    const root: int
    var node: Nodes
    var idFirst: seq<int>
    var idNext: map<int, int>
    var nameFirst: seq<int>
    var nameNext: map<int, int>
    var ctr: nat
    var generation: nat
    ghost var idChains: seq<seq<int>>
    ghost var nameChains: seq<seq<int>>
    ghost var idHome: map<int, int>
    ghost var nameHome: map<int, int>
    ghost var rank: map<int, nat>
    ghost var epoch: nat
    ghost var issued: seq<nat>

    ghost function Ids(): Buckets
      reads this`idFirst, this`idNext, this`idChains, this`idHome
    {
      Buckets(idFirst, idNext, idChains, idHome)
    }

    ghost function Names(): Buckets
      reads this`nameFirst, this`nameNext, this`nameChains, this`nameHome
    {
      Buckets(nameFirst, nameNext, nameChains, nameHome)
    }

    /** The two tables agree with the nodes. */
    ghost predicate Hashed(fresh_: set<int>)
      reads this`node, this`idFirst, this`idNext, this`idChains, this`idHome,
        this`nameFirst, this`nameNext, this`nameChains, this`nameHome
    {
      && Sound(Ids()) && Sound(Names()) && |idChains| == |nameChains| == TABLE_SIZE
      && OneHeap(idNext, nameNext, node) && Homes(idHome, nameHome, node, fresh_)
    }

    /** All is well, with one reference for each node in `held`. */
    ghost predicate Holds(held: set<int>)
      reads this`node, this`rank, this`idFirst, this`idNext, this`idChains, this`idHome,
        this`nameFirst, this`nameNext, this`nameChains, this`nameHome
    {
      Tree(node, root, held, rank) && Hashed({})
    }

    /** The state between two requests. */
    ghost predicate Valid()
      reads this
    {
      Holds(Looked(node)) && Clock(ctr, generation, epoch) && Issued(issued, StampOf(epoch, ctr))
    }

    /** The table of fuse_new, with `addr` the address of the root node. */
    constructor (addr: int)
      requires addr >= 0
      ensures Valid() && root == addr && node == map[addr := Node(ROOT_ID, 0, 1, NIL, Some("/"), 1)]
      ensures ctr == 0 && generation == 0 && epoch == 0 && issued == []
    {
      hide Sound, Tree, NameHome, NameHash, Homes, IdHome, OneHeap, Looked;
      root := addr;
      node := map[addr := Node(ROOT_ID, 0, 1, NIL, Some("/"), 1)];
      idFirst, nameFirst := seq(TABLE_SIZE, _ => NIL), seq(TABLE_SIZE, _ => NIL);
      idNext, nameNext := map[addr := NIL], map[addr := NIL];
      ctr, generation, epoch, issued := 0, 0, 0, [];
      idChains, nameChains := seq(TABLE_SIZE, _ => []), seq(TABLE_SIZE, _ => []);
      idHome, nameHome, rank := map[], map[], map[addr := 0];
      new;
      RootTree(addr, node[addr]);
      EmptySound(Ids());
      EmptySound(Names());
      HashId(addr);
    }

    // ----- searching

    method GetNodeNocheck(nodeid: nat, ghost fresh_: set<int>) returns (p: int)
      requires Hashed(fresh_)
      ensures p == NIL <==> forall q | q in idHome && q in node :: node[q].nodeid != nodeid
      ensures p != NIL ==> p in idHome && p in node && node[p].nodeid == nodeid
    {
      hide Sound, NameHome;
      var h := nodeid % TABLE_SIZE;
      Heads(Ids(), h);
      p := idFirst[h];
      ghost var j := 0;
      while p != NIL
        invariant 0 <= j <= |idChains[h]| && p == CellAt(idChains[h], j)
        invariant forall i | 0 <= i < j :: idChains[h][i] in node && node[idChains[h][i]].nodeid != nodeid
        decreases |idChains[h]| - j
      {
        OnChain(Ids(), h, j);
        if node[p].nodeid == nodeid {
          return;
        }
        p := idNext[p];
        j := j + 1;
      }
      if j < |idChains[h]| { OnChain(Ids(), h, j); }
      forall q | q in idHome && q in node
        ensures node[q].nodeid != nodeid
      {
        ghost var i := Position(Ids(), q);
      }
    }

    method GetNode(nodeid: nat, ghost fresh_: set<int>) returns (p: int)
      requires Hashed(fresh_) && exists q :: q in idHome && q in node && node[q].nodeid == nodeid
      ensures p in idHome && p in node && node[p].nodeid == nodeid
    {
      hide Sound, NameHome;
      p := GetNodeNocheck(nodeid, fresh_);
      if p == NIL {
        assert false;
      }
    }

    method LookupNode(parent: nat, name: string) returns (p: int)
      requires Shaped(node, root) && UniqueIds(node) && UniqueNames(node) && Hashed({})
      ensures p == NIL <==> NameFree(node, parent, name)
      ensures p != NIL ==> Named(node, p, parent, name)
    {
      hide Sound, NameHome, UniqueIds, UniqueNames, NameHash;
      var h := NameHash(parent, name);
      Heads(Names(), h);
      p := nameFirst[h];
      ghost var j := 0;
      while p != NIL
        invariant 0 <= j <= |nameChains[h]| && p == CellAt(nameChains[h], j)
        invariant forall i | 0 <= i < j :: !Named(node, nameChains[h][i], parent, name)
        decreases |nameChains[h]| - j
      {
        OnChain(Names(), h, j);
        NamedHome(node, p, NameHash);
        if node[node[p].parent].nodeid == parent && node[p].name == Some(name) {
          ParentIs(node, root, p);
          assert Named(node, p, parent, name);
          return;
        }
        p := nameNext[p];
        j := j + 1;
      }
      if j < |nameChains[h]| { OnChain(Names(), h, j); }
      forall q
        ensures !Named(node, q, parent, name)
      {
        NamedHome(node, q, NameHash);
        if q in nameHome {
          ghost var i := Position(Names(), q);
        }
      }
    }

    // ----- the chains

    method UnhashId(p: int)
      requires Sound(Ids()) && p in node && p in idHome && idHome[p] == node[p].nodeid % TABLE_SIZE
      requires |idChains| == TABLE_SIZE
      modifies this`idFirst, this`idNext, this`idChains, this`idHome
      ensures Sound(Ids()) && idHome == old(idHome) - {p} && idNext.Keys == old(idNext.Keys)
      ensures |idChains| == TABLE_SIZE
    {
      hide Sound;
      ghost var b;
      idFirst, idNext, b := UnlinkFrom(idFirst, idNext, node[p].nodeid % TABLE_SIZE, p, Ids());
      idChains, idHome := b.chains, b.home;
    }

    method HashId(p: int)
      requires Sound(Ids()) && p >= 0 && p in node && p !in idHome && |idChains| == TABLE_SIZE && OneHeap(idNext, nameNext, node)
      modifies this`idFirst, this`idNext, this`idChains, this`idHome
      ensures Sound(Ids()) && idHome == old(idHome)[p := node[p].nodeid % TABLE_SIZE]
      ensures |idChains| == TABLE_SIZE && OneHeap(idNext, nameNext, node)
    {
      hide Sound;
      var h := node[p].nodeid % TABLE_SIZE;
      ghost var b := Ids();
      PushedSound(b, p, h);
      idNext := idNext[p := idFirst[h]];
      idFirst := idFirst[h := p];
      idChains, idHome := idChains[h := [p] + idChains[h]], idHome[p := h];
      assert Ids() == Pushed(b, p, h);
    }

    /** unref_node with delete_node: the assertions of both hold. */
    method UnrefNode(q: int)
      requires Sound(Ids()) && Sound(Names()) && |idChains| == TABLE_SIZE && q in node
      requires node[q].refctr > 0 && OneHeap(idNext, nameNext, node)
      requires node[q].refctr == 1 ==> node[q].name.None? && q in idHome && idHome[q] == node[q].nodeid % TABLE_SIZE && q !in nameHome
      modifies this`node, this`idFirst, this`idNext, this`idChains, this`idHome, this`nameNext
      ensures node == Unref(old(node), q) && Sound(Ids()) && Sound(Names()) && |idChains| == TABLE_SIZE
      ensures OneHeap(idNext, nameNext, node)
      ensures idHome == old(idHome) - if old(node[q].refctr) == 1 then {q} else {}
    {
      hide Sound;
      assert node[q].refctr > 0;
      node := node[q := node[q].(refctr := node[q].refctr - 1)];
      if node[q].refctr == 0 {
        assert node[q].name.None?;
        UnhashId(q);
        Released(Ids(), q);
        Released(Names(), q);
        node := node - {q};
        idNext := idNext - {q};
        nameNext := nameNext - {q};
      }
    }

    /** The first half of unhash_name: the node leaves its name chain; the abort is not reached. */
    method UnchainName(p: int)
      requires Sound(Names()) && |nameChains| == TABLE_SIZE && OneHeap(idNext, nameNext, node)
      requires p in node && node[p].parent in node && node[p].name.Some?
      requires p in nameHome && nameHome[p] == NameHash(node[node[p].parent].nodeid, node[p].name.value)
      modifies this`nameFirst, this`nameNext, this`nameChains, this`nameHome
      ensures Sound(Names()) && nameHome == old(nameHome) - {p} && OneHeap(idNext, nameNext, node)
      ensures |nameChains| == TABLE_SIZE
    {
      hide Sound, NameHash;
      ghost var b;
      nameFirst, nameNext, b := UnlinkFrom(nameFirst, nameNext, NameHash(node[node[p].parent].nodeid, node[p].name.value), p, Names());
      nameChains, nameHome := b.chains, b.home;
      Allocated(Names(), p, NIL);
      nameNext := nameNext[p := NIL];
    }

    method UnhashName(p: int, ghost held: set<int>)
      requires Holds(held) && p in node && p != root
      modifies this`node, this`idFirst, this`idNext, this`idChains, this`idHome,
        this`nameFirst, this`nameNext, this`nameChains, this`nameHome
      ensures Holds(held) && p in node && p in old(node)
      ensures old(node[p].parent) == NIL ==> node == old(node)
      ensures old(node[p].parent) != NIL ==> old(node[p].parent) in old(node) && node == Detached(old(node), p)
    {
      hide Sound, Tree, NameHome, IdHome, NameHash, Detached, Unref, Homes, OneHeap;
      TreeAt(node, root, held, rank, p);
      if node[p].name.Some? {
        ghost var node0 := node;
        var parent := node[p].parent;
        Detaching(node, root, held, rank, p, idHome, nameHome);
        UnchainName(p);
        UnrefNode(parent);
        SameHeap(idNext, nameNext, node, p, node[p].(name := None, parent := NIL));
        node := node[p := node[p].(name := None, parent := NIL)];
      }
    }

    method HashName(p: int, parentid: nat, name: string, ghost held: set<int>, ghost fresh_: set<int>) returns (ghost d: int)
      requires Tree(node, root, held, rank) && Hashed(fresh_) && p in held && p in node && p != root && node[p].parent == NIL
      requires Known(node, parentid, fresh_) && Clear(node, rank, parentid, p) && NameFree(node, parentid, name)
      modifies this`node, this`nameFirst, this`nameNext, this`nameChains, this`nameHome, this`rank
      ensures d in old(node) && d !in fresh_ && old(node)[d].nodeid == parentid && p in old(node) && p != d
      ensures node == Attached(old(node), p, d, name)
      ensures Tree(node, root, held, rank) && Hashed(fresh_)
    {
      hide Sound, Tree, NameHome, IdHome, NameHash, Under, Reranked, Named, UniqueIds, UniqueNames, Placed, Ranked, Attached,
        Homes, OneHeap, Known, Clear, NameFree;
      var h := NameHash(parentid, name);
      ghost var node0 := node;
      KnownHome(node, parentid, idHome, nameHome, fresh_);
      var parent := GetNode(parentid, fresh_);
      d := parent;
      HomeKeys(node, d, idHome, nameHome, fresh_);
      Attaching(node, root, held, rank, p, d, name, idHome, nameHome, fresh_);
      AttachedHeap(idNext, nameNext, node, p, d, name);
      node := node[p := node[p].(name := Some(name))];
      node := node[parent := node[parent].(refctr := node[parent].refctr + 1)];
      node := node[p := node[p].(parent := parent)];
      ChainName(p, h);
      rank := Reranked(node0, rank, p, d);
      assert node == Attached(node0, p, d, name);
    }

    method ChainName(p: int, h: int)
      requires Sound(Names()) && |nameChains| == TABLE_SIZE && p !in nameHome && p >= 0 && 0 <= h < TABLE_SIZE
      requires p in node && OneHeap(idNext, nameNext, node)
      modifies this`nameFirst, this`nameNext, this`nameChains, this`nameHome
      ensures Sound(Names()) && |nameChains| == TABLE_SIZE && nameHome == old(nameHome)[p := h]
      ensures OneHeap(idNext, nameNext, node)
    {
      hide Sound;
      ghost var b := Names();
      PushedSound(b, p, h);
      nameNext := nameNext[p := nameFirst[h]];
      nameFirst := nameFirst[h := p];
      nameChains, nameHome := nameChains[h := [p] + nameChains[h]], nameHome[p := h];
      assert Names() == Pushed(b, p, h);
    }

    /** One step of the id counter; the generation moves on when it wraps. */
    method Tick()
      requires Clock(ctr, generation, epoch)
      modifies this`ctr, this`generation, this`epoch
      ensures Clock(ctr, generation, epoch) && StampOf(epoch, ctr) == old(StampOf(epoch, ctr)) + 1
      ensures ctr == if old(ctr) + 1 < WORD then old(ctr) + 1 else 0
    {
      Advanced(epoch, ctr);
      ctr := (ctr + 1) % WORD;
      if ctr == 0 {
        generation := (generation + 1) % WORD;
        epoch := epoch + 1;
      }
    }

    /** next_id: the (generation, id) pair moves on past 0, the reserved id and every id in use. */
    method NextId() returns (id: nat)
      requires Hashed({}) && Clock(ctr, generation, epoch) && |node| < UNKNOWN_INO - 1
      modifies this`ctr, this`generation, this`epoch
      ensures id == ctr && Clock(ctr, generation, epoch) && StampOf(epoch, ctr) > old(StampOf(epoch, ctr))
      ensures id != 0 && id != UNKNOWN_INO && Unused(node, id)
      ensures forall k | old(StampOf(epoch, ctr)) < k < StampOf(epoch, ctr) :: Unusable(node, k % WORD)
    {
      hide Sound, NameHome, StampOf, Clock, IdHome, OneHeap;
      ghost var w := FreeId(node);
      IdHomeKeys(node, TABLE_SIZE);
      Tick();
      StampParts(epoch, ctr);
      var p := GetNodeNocheck(ctr, {});
      while ctr == 0 || ctr == UNKNOWN_INO || p != NIL
        invariant ctr < WORD && Clock(ctr, generation, epoch) && StampOf(epoch, ctr) > old(StampOf(epoch, ctr))
        invariant p == NIL <==> forall q | q in node :: node[q].nodeid != ctr
        invariant StampOf(epoch, ctr) % WORD == ctr
        invariant forall k | old(StampOf(epoch, ctr)) < k < StampOf(epoch, ctr) :: Unusable(node, k % WORD)
        decreases if ctr <= w then w - ctr else w + WORD - ctr
      {
        assert Unusable(node, ctr);
        Tick();
        StampParts(epoch, ctr);
        p := GetNodeNocheck(ctr, {});
      }
      id := ctr;
    }

    // ----- the requests

    /** A node with the next id and no place in the tables yet. */
    method AllocNode(parent: nat, name: string, addr: int)
      requires Valid() && |node| < UNKNOWN_INO - 1 && addr >= 0 && addr !in node
      requires Known(node, parent, {}) && NameFree(node, parent, name)
      modifies this`node, this`idNext, this`nameNext, this`rank, this`ctr, this`generation, this`epoch
      ensures Clock(ctr, generation, epoch) && StampOf(epoch, ctr) > old(StampOf(epoch, ctr))
      ensures node == old(node)[addr := Node(ctr, generation, 1, NIL, None, 0)] && addr != root
      ensures Tree(node, root, old(Looked(node)) + {addr}, rank) && Hashed({addr})
      ensures Known(node, parent, {addr}) && Clear(node, rank, parent, addr) && NameFree(node, parent, name)
    {
      hide Sound, Tree, NameHome, IdHome, NameHash, Under, Named, StampOf, Clock, Looked, Known, Clear, NameFree,
        Unused, Children, UniqueIds, UniqueNames, Placed, Shaped, Counted, Ranked, Homes, OneHeap, Issued;
      ghost var held := Looked(node);
      var id := NextId();
      var n := Node(id, generation, 1, NIL, None, 0);
      ghost var node1 := node[addr := n];
      FreshFacts(node, node1, root, held, rank, addr, n, parent, name);
      FreshHomes(node, node1, root, addr, n, idHome, nameHome);
      FreshHeap(idNext, nameNext, node, addr, n);
      Allocated(Ids(), addr, NIL);
      Allocated(Names(), addr, NIL);
      node, idNext, nameNext := node[addr := n], idNext[addr := NIL], nameNext[addr := NIL];
      rank := rank[addr := 0];
    }

    /** A new node under a name that is not taken; its lookup is still to be counted. */
    method NewNode(parent: nat, name: string, addr: int)
      requires Valid() && |node| < UNKNOWN_INO - 1 && addr >= 0 && addr !in node
      requires Known(node, parent, {}) && NameFree(node, parent, name)
      modifies this
      ensures Clock(ctr, generation, epoch) && StampOf(epoch, ctr) > old(StampOf(epoch, ctr)) && issued == old(issued)
      ensures addr in node && node[addr].nodeid == ctr && node[addr].generation == generation
      ensures node[addr].nlookup == 0 && Named(node, addr, parent, name)
      ensures node.Keys == old(node).Keys + {addr} && OthersKept(old(node), node, {addr})
      ensures Looked(node) == old(Looked(node))
      ensures Holds(old(Looked(node)) + {addr})
    {
      hide Sound, Tree, NameHome, IdHome, NameHash, Under, Named, OthersKept, Attached, StampOf, Clock, Reranked, Looked, Known, Clear, NameFree,
        Unused, Children, UniqueIds, UniqueNames, Placed, Shaped, Counted, Ranked, Homes, OneHeap, Issued;
      ghost var node0, held := node, Looked(node);
      AllocNode(parent, name, addr);
      ghost var n := node[addr];
      ghost var d := HashName(addr, parent, name, held + {addr}, {addr});
      FreshNamed(node0, node, addr, n, d, parent, name);
      IdHomeWhole(node, addr, idHome, nameHome);
      HashId(addr);
    }

    /** The half of find_node for a name that is not known yet. */
    method AddNode(parent: nat, name: string, addr: int)
      requires Valid() && |node| < UNKNOWN_INO - 1 && addr >= 0 && addr !in node
      requires Known(node, parent, {}) && NameFree(node, parent, name)
      modifies this
      ensures Valid() && Named(node, addr, parent, name)
      ensures node.Keys == old(node).Keys + {addr} && OthersKept(old(node), node, {addr})
      ensures node[addr].nlookup == 1 && (node[addr].generation, node[addr].nodeid) == PairOf(StampOf(epoch, ctr))
      ensures issued == old(issued) + [StampOf(epoch, ctr)]
    {
      hide Sound, Tree, NameHome, IdHome, NameHash, Named, OthersKept, PairOf, Issued, NotReissued, StampOf, Clock, Looked, Known, Children, UniqueIds,
        UniqueNames, Placed, Shaped, Counted, Ranked, Homes, OneHeap, Hashed, Alike, NameFree;
      ghost var node0, held := node, Looked(node);
      NewNode(parent, name, addr);
      RelookedNamed(node0, node, addr, node[addr].nlookup + 1, parent, name);
      SetLookups(addr, node[addr].nlookup + 1, held + {addr});
      PairParts(epoch, ctr, generation);
      IssuedMore(issued, old(StampOf(epoch, ctr)), StampOf(epoch, ctr));
      issued := issued + [StampOf(epoch, ctr)];
    }

    /** find_node, with `addr` the address that calloc would return. */
    method FindNode(parent: nat, name: string, addr: int) returns (p: int)
      requires Valid() && |node| < UNKNOWN_INO - 1 && addr >= 0 && addr !in node
      requires exists d :: d in Looked(node) && node[d].nodeid == parent
      modifies this
      ensures Named(node, p, parent, name)
      ensures !NameFree(old(node), parent, name) ==>
                && p in old(node) && node == old(node)[p := old(node)[p].(nlookup := old(node)[p].nlookup + 1)]
                && ctr == old(ctr) && generation == old(generation) && epoch == old(epoch) && issued == old(issued)
      ensures NameFree(old(node), parent, name) ==>
                && p == addr && node.Keys == old(node).Keys + {p} && OthersKept(old(node), node, {p})
                && node[p].nlookup == 1 && issued == old(issued) + [StampOf(epoch, ctr)]
                && (node[p].generation, node[p].nodeid) == PairOf(StampOf(epoch, ctr)) && NotReissued(old(issued), StampOf(epoch, ctr))
      ensures Valid()
    {
      hide Sound, Tree, NameHome, IdHome, NameHash, Named, OthersKept, PairOf, Issued, NotReissued, StampOf, Clock, Looked, Known, Children, UniqueIds,
        UniqueNames, Placed, Shaped, Counted, Ranked, Homes, OneHeap, Hashed, Alike, NameFree;
      TreeParts(node, root, Looked(node), rank);
      LookedIn(node);
      ghost var held := Looked(node);
      p := LookupNode(parent, name);
      if p == NIL {
        p := addr;
        AddNode(parent, name, addr);
        NotSeen(old(issued), StampOf(epoch, ctr));
      } else {
        NamedHeld(node, root, held, rank, p, parent, name);
        NamedIn(node, p, parent, name);
        RelookedNamed(node, node, p, node[p].nlookup + 1, parent, name);
        assert held == Looked(node) + {p};
        SetLookups(p, node[p].nlookup + 1, held);
      }
    }

    method SetLookups(p: int, n: nat, ghost held: set<int>)
      requires Holds(held) && p in node && p in held && held == Looked(node) + {p}
      modifies this`node
      ensures node == old(node)[p := old(node)[p].(nlookup := n)] && held == Looked(node) + {p} && Holds(held)
      ensures n > 0 ==> held == Looked(node)
      ensures n == 0 ==> Looked(node) == held - {p}
    {
      hide Sound, Tree, NameHome, IdHome, NameHash, Looked, Homes, OneHeap;
      RelookedFacts(node, root, held, rank, p, n);
      RelookedHomes(node, p, n, idHome, nameHome);
      SameHeap(idNext, nameNext, node, p, node[p].(nlookup := n));
      node := node[p := node[p].(nlookup := n)];
    }

    /** unref_node for the lookups of a node that has no name left. */
    method Release(p: int, ghost held: set<int>)
      requires Holds(held) && p in held && p in node && p != root && node[p].parent == NIL
      modifies this`node, this`idFirst, this`idNext, this`idChains, this`idHome, this`nameNext
      ensures node == Unref(old(node), p) && Holds(held - {p})
    {
      hide Sound, Tree, NameHome, IdHome, NameHash, Unref, Homes, OneHeap;
      Releasing(node, root, held, rank, p, idHome, nameHome);
      UnrefNode(p);
    }

    /** forget_node: the assertion on the lookup count holds. */
    method ForgetNode(nodeid: nat, n: nat) returns (ghost p: int)
      requires Valid() && (nodeid != ROOT_ID ==> MayForget(node, nodeid, n))
      modifies this
      ensures nodeid == ROOT_ID ==> node == old(node)
      ensures nodeid != ROOT_ID ==> p in old(node) && old(node)[p].nodeid == nodeid && n <= old(node)[p].nlookup
      ensures nodeid != ROOT_ID && n < old(node)[p].nlookup ==>
                node == old(node)[p := old(node)[p].(nlookup := old(node)[p].nlookup - n)]
      ensures nodeid != ROOT_ID && n == old(node)[p].nlookup ==> Forgotten(old(node), node, p)
      ensures ctr == old(ctr) && generation == old(generation) && epoch == old(epoch) && issued == old(issued)
      ensures Valid()
    {
      hide Sound, Tree, NameHome, IdHome, NameHash, Looked, Homes, OneHeap, Hashed, Issued, StampOf, Clock, Unref, Detached, OthersKept, Forgotten, Children;
      p := NIL;
      if nodeid == ROOT_ID {
        return;
      }
      ghost var node0, held := node, Looked(node);
      var q := GetHeld(nodeid, n);
      p := q;
      assert node[q].nlookup >= n;
      SetLookups(q, node[q].nlookup - n, held);
      if node[q].nlookup == 0 {
        ghost var node1 := node;
        UnhashName(q, held);
        ghost var node2 := node;
        TreeNil(node1, node2, root, held, rank, q);
        Release(q, held);
        ForgetSteps(node0, node1, node2, node, root, held, rank, q);
      }
    }

    /** get_node for an id the kernel still holds. */
    method GetHeld(nodeid: nat, ghost n: nat) returns (p: int)
      requires Valid() && MayForget(node, nodeid, n)
      ensures p in node && node[p].nodeid == nodeid && p in Looked(node) && n <= node[p].nlookup
      ensures (p == root) == (nodeid == ROOT_ID) && Looked(node) == Looked(node) + {p}
    {
      hide Sound, Tree, NameHome, IdHome, NameHash, OneHeap, UniqueIds, UniqueNames, Counted, Ranked, Placed;
      TreeParts(node, root, Looked(node), rank);
      IdHomeKeys(node, TABLE_SIZE);
      ghost var q :| q in Looked(node) && node[q].nodeid == nodeid && n <= node[q].nlookup;
      assert q in idHome;
      p := GetNode(nodeid, {});
      SameNode(node, p, q);
      if nodeid == ROOT_ID { SameNode(node, p, root); }
    }

    /** remove_node */
    method RemoveNode(dir: nat, name: string) returns (ghost p: int)
      requires Valid()
      modifies this
      ensures NameFree(old(node), dir, name) ==> node == old(node)
      ensures !NameFree(old(node), dir, name) ==>
                Named(old(node), p, dir, name) && node == Detached(old(node), p) && OthersKept(old(node), node, {p})
      ensures ctr == old(ctr) && generation == old(generation) && epoch == old(epoch) && issued == old(issued)
      ensures Valid()
    {
      hide Sound, Tree, NameHome, IdHome, NameHash, Looked, Homes, OneHeap, Hashed, Issued, StampOf, Clock, Detached, OthersKept, NameFree, Named;
      TreeParts(node, root, Looked(node), rank);
      ghost var node0, held := node, Looked(node);
      var q := LookupNode(dir, name);
      p := q;
      if q != NIL {
        NamedParent(node, root, held, rank, q, dir, name);
        DetachedKept(node, root, held, rank, q);
        UnhashName(q, held);
      }
    }

    /**
     rename_node: -16 is -EBUSY.  `p` is the node moved, `other` the one that had the new
     name, if any.
     */
    method RenameNode(olddir: nat, oldname: string, newdir: nat, newname: string, hiding: bool)
      returns (err: int, ghost p: int, ghost other: int)
      requires Valid() && MayMove(node, rank, olddir, oldname, newdir)
      modifies this
      ensures NameFree(old(node), olddir, oldname) ==> err == 0 && node == old(node)
      ensures !NameFree(old(node), olddir, oldname) && hiding && !NameFree(old(node), newdir, newname) ==> err == -16 && node == old(node)
      ensures !NameFree(old(node), olddir, oldname) && (hiding ==> NameFree(old(node), newdir, newname)) ==>
                err == 0 && Moved(old(node), node, p, other, olddir, oldname, newdir, newname)
      ensures ctr == old(ctr) && generation == old(generation) && epoch == old(epoch) && issued == old(issued)
      ensures Valid()
    {
      hide Sound, Tree, NameHome, IdHome, NameHash, Looked, Homes, OneHeap, Hashed, Issued, StampOf, Clock, Detached, OthersKept, NameFree, Named,
        MayMove, Moved, Known, Clear, Attached;
      TreeParts(node, root, Looked(node), rank);
      ghost var node0, held := node, Looked(node);
      var q := LookupNode(olddir, oldname);
      var newnode := LookupNode(newdir, newname);
      err, p, other := 0, q, newnode;
      if q == NIL {
        return;
      }
      if newnode != NIL {
        if hiding {
          err := -16;
          return;
        }
        NamedParent(node, root, held, rank, newnode, newdir, newname);
        UnhashName(newnode, held);
      }
      NamedParent(node0, root, held, rank, q, olddir, oldname);
      TreeParts(node, root, held, rank);
      ghost var node1 := node;
      UnhashName(q, held);
      ghost var node2, rank0 := node, rank;
      RenameReady(node0, node1, node2, root, held, rank, q, newnode, olddir, oldname, newdir, newname);
      ghost var d := HashName(q, newdir, newname, held, {});
      RenameDone(node0, node1, node2, node, root, held, rank0, q, newnode, d, olddir, oldname, newdir, newname);
    }
  }

  /** The pointer-to-pointer walk of unhash_id and unhash_name. */
  method UnlinkFrom(first: seq<int>, next: map<int, int>, h: int, p: int, ghost b: Buckets)
    returns (first': seq<int>, next': map<int, int>, ghost b': Buckets)
    requires Sound(b) && b.first == first && b.next == next && p in b.home && b.home[p] == h
    ensures Sound(b') && b'.first == first' && b'.next == next' && b'.home == b.home - {p}
    ensures next'.Keys == next.Keys && |b'.chains| == |b.chains|
  {
    hide Sound;
    ghost var k := Position(b, p);
    ghost var c := b.chains[h];
    Heads(b, h);
    var before, current := NIL, first[h];
    ghost var j := 0;
    while current != NIL
      invariant 0 <= j <= k < |c| && current == CellAt(c, j) && before == CellAt(c, j - 1)
      decreases k - j
    {
      OnChain(b, h, j);
      if current == p {
        RemovedSound(b, h, j);
        if j > 0 { OnChain(b, h, j - 1); }
        if before == NIL {
          first', next' := first[h := next[current]], next;
        } else {
          first', next' := first, next[before := next[current]];
        }
        b' := Removed(b, h, j);
        return;
      }
      before := current;
      current := next[current];
      j := j + 1;
    }
    OnChain(b, h, j);
    assert false;
    first', next', b' := first, next, b;
  }

  lemma TreeAt(node: Nodes, root: int, held: set<int>, rank: map<int, nat>, p: int)
    requires Tree(node, root, held, rank) && p in node
    ensures p >= 0 && (p != root ==> (node[p].parent != NIL <==> node[p].name.Some?))
    ensures node[p].parent != NIL ==> node[p].parent in node
  {
    assert Placed(node, root, p);
  }

  /** What unhash_name relies on when it drops the reference to the parent. */
  lemma Detaching(node: Nodes, root: int, held: set<int>, rank: map<int, nat>, p: int, idHome: map<int, int>, nameHome: map<int, int>)
    requires Tree(node, root, held, rank) && p in node && node[p].parent != NIL && Homes(idHome, nameHome, node, {})
    ensures node[p].parent in node && node[p].name.Some? && node[p].parent != p && node[node[p].parent].refctr > 0
    ensures p in nameHome && nameHome[p] == NameHash(node[node[p].parent].nodeid, node[p].name.value)
    ensures var q := node[p].parent;
            && (node[q].refctr == 1 ==> node[q].name.None? && q in idHome && idHome[q] == node[q].nodeid % TABLE_SIZE && q !in nameHome)
            && p in Unref(node, q) && Unref(node, q)[p] == node[p]
            && Detached(node, p) == Unref(node, q)[p := node[p].(name := None, parent := NIL)]
            && Homes(idHome - (if node[q].refctr == 1 then {q} else {}), nameHome - {p}, Detached(node, p), {})
            && Tree(Detached(node, p), root, held, rank)
  {
    hide CountIs, UniqueIds, UniqueNames, Ranked, NameHome, NameHash;
    LastChild(node, root, held, rank, p);
    assert Placed(node, root, p);
    NamedHome(node, p, NameHash);
    NamedHome(node, node[p].parent, NameHash);
    assert NIL in node ==> Placed(node, root, NIL);
    DetachedTree(node, root, held, rank, p);
    DetachedHomes(node, root, held, rank, p, TABLE_SIZE, NameHash);
  }

  lemma SameHeap(idNext: map<int, int>, nameNext: map<int, int>, node: Nodes, p: int, n: Node)
    requires p in node && OneHeap(idNext, nameNext, node)
    ensures OneHeap(idNext, nameNext, node[p := n])
  {
  }

  lemma ParentIs(node: Nodes, root: int, p: int)
    requires Shaped(node, root) && p in node
    ensures p >= 0
  {
    assert Placed(node, root, p);
  }

  lemma OnlyOne(node: Nodes, root: int, p: int, parent: nat, name: string)
    requires Shaped(node, root) && UniqueIds(node) && UniqueNames(node) && Named(node, p, parent, name)
    ensures forall q :: Named(node, q, parent, name) ==> q == p
  {
    assert NIL in node ==> Placed(node, root, NIL);
  }

  lemma TreeParts(node: Nodes, root: int, held: set<int>, rank: map<int, nat>)
    requires Tree(node, root, held, rank)
    ensures Shaped(node, root) && UniqueIds(node) && UniqueNames(node) && root in held && held <= node.Keys && Ranked(node, rank)
  {
  }

  lemma IdHomeKeys(node: Nodes, size: nat)
    requires size > 0
    ensures IdHome(node, size).Keys == node.Keys
  {
  }

  lemma KnownHome(node: Nodes, id: nat, idHome: map<int, int>, nameHome: map<int, int>, fresh_: set<int>)
    requires Known(node, id, fresh_) && Homes(idHome, nameHome, node, fresh_)
    ensures exists q :: q in idHome && q in node && node[q].nodeid == id
  {
    var d :| d in node && d !in fresh_ && node[d].nodeid == id;
    assert d in idHome;
  }

  lemma HomeKeys(node: Nodes, p: int, idHome: map<int, int>, nameHome: map<int, int>, fresh_: set<int>)
    requires Homes(idHome, nameHome, node, fresh_)
    ensures p in idHome <==> p in node && p !in fresh_
  {
  }

  lemma AttachedHeap(idNext: map<int, int>, nameNext: map<int, int>, node: Nodes, p: int, d: int, name: string)
    requires p in node && d in node && p != d && OneHeap(idNext, nameNext, node)
    ensures OneHeap(idNext, nameNext, Attached(node, p, d, name))
  {
  }

  /** What hash_name relies on, and what it leaves. */
  lemma Attaching(node: Nodes, root: int, held: set<int>, rank: map<int, nat>, p: int, d: int, name: string,
                  idHome: map<int, int>, nameHome: map<int, int>, fresh_: set<int>)
    requires Tree(node, root, held, rank) && p in held && p != root && p in node && node[p].parent == NIL && d in node
    requires Clear(node, rank, node[d].nodeid, p) && NameFree(node, node[d].nodeid, name)
    requires Homes(idHome, nameHome, node, fresh_)
    ensures Ranked(node, rank) && p >= 0 && p != d && p !in nameHome
    ensures Tree(Attached(node, p, d, name), root, held, Reranked(node, rank, p, d)) && p in Attached(node, p, d, name)
    ensures Homes(idHome, nameHome[p := NameHash(node[d].nodeid, name)], Attached(node, p, d, name), fresh_)
    ensures var node1 := node[p := node[p].(name := Some(name))];
            var node2 := node1[d := node1[d].(refctr := node1[d].refctr + 1)];
            node2[p := node2[p].(parent := d)] == Attached(node, p, d, name)
  {
    hide Tree, NameHome, IdHome, Under, Reranked, UniqueIds, UniqueNames, Ranked, Attached, Named, NameFree, NameHash;
    TreeAt(node, root, held, rank, p);
    TreeParts(node, root, held, rank);
    NoChildOf(node, d, node[d].nodeid, name);
    AttachedTree(node, root, held, rank, p, d, name);
    AttachedHomes(node, root, p, d, name, TABLE_SIZE, NameHash);
    AttachedSteps(node, p, d, name);
  }

  lemma AttachedSteps(node: Nodes, p: int, d: int, name: string)
    requires p in node && d in node && p != d
    ensures Attached(node, p, d, name).Keys == node.Keys
    ensures var node1 := node[p := node[p].(name := Some(name))];
            var node2 := node1[d := node1[d].(refctr := node1[d].refctr + 1)];
            node2[p := node2[p].(parent := d)] == Attached(node, p, d, name)
  {
  }

  lemma NoChildOf(node: Nodes, d: int, parentid: nat, name: string)
    requires d in node && node[d].nodeid == parentid && NameFree(node, parentid, name)
    ensures forall q | q in node && node[q].parent == d :: node[q].name != Some(name)
  {
    forall q | q in node && node[q].parent == d
      ensures node[q].name != Some(name)
    {
      assert !Named(node, q, parentid, name);
    }
  }

  lemma StampParts(epoch: nat, ctr: nat)
    requires ctr < WORD
    ensures StampOf(epoch, ctr) % WORD == ctr
  {
  }

  lemma PairParts(epoch: nat, ctr: nat, generation: nat)
    requires Clock(ctr, generation, epoch)
    ensures (generation, ctr) == PairOf(StampOf(epoch, ctr))
  {
    assert StampOf(epoch, ctr) / WORD == epoch;
  }

  /** Two places have the same pair exactly if they are a multiple of 2^64 apart. */
  lemma SamePair(a: nat, b: nat)
    requires a <= b
    ensures PairOf(a) == PairOf(b) <==> (b - a) % (PAIRS) == 0
  {
  }

  lemma IssuedMore(issued: seq<nat>, before: nat, now: nat)
    requires Issued(issued, before) && before < now
    ensures Issued(issued + [now], now)
  {
  }

  lemma NotSeen(issued: seq<nat>, now: nat)
    requires Issued(issued + [now], now)
    ensures NotReissued(issued, now)
  {
    hide PairOf;
    var all := issued + [now];
    forall i | 0 <= i < |issued| && now - issued[i] < PAIRS ensures PairOf(issued[i]) != PairOf(now) {
      assert all[i] < all[|issued|];
      SamePair(issued[i], now);
    }
  }

  /**
   Over a whole run: no (generation, id) pair is handed out twice, as long as the generation
   counter, 32 bits wide, has not come round in between.
   */
  lemma NeverReissued(issued: seq<nat>, now: nat, i: int, j: int)
    requires Issued(issued, now) && 0 <= i < j < |issued|
    ensures issued[j] / WORD - issued[i] / WORD < WORD ==> PairOf(issued[i]) != PairOf(issued[j])
    ensures PairOf(issued[i]) == PairOf(issued[j]) <==> (issued[j] - issued[i]) % (PAIRS) == 0
  {
    SamePair(issued[i], issued[j]);
  }

  /** One step of the counter is one step of the whole stamp. */
  lemma Advanced(epoch: nat, ctr: nat)
    requires ctr < WORD
    ensures ctr + 1 < WORD ==> (ctr + 1) % WORD == ctr + 1
    ensures ctr + 1 == WORD ==> (ctr + 1) % WORD == 0 && (epoch + 1) * WORD == epoch * WORD + WORD
    ensures (epoch % WORD + 1) % WORD == (epoch + 1) % WORD
  {
  }

  // ----- there is always a free id

  ghost function UsedIds(node: Nodes): set<nat> {
    set q | q in node :: node[q].nodeid
  }

  lemma {:induction false} FewIds(node: Nodes)
    ensures |UsedIds(node)| <= |node|
    decreases |node|
  {
    if p :| p in node {
      var rest := node - {p};
      assert rest.Keys == node.Keys - {p};
      FewIds(rest);
      forall x | x in UsedIds(node)
        ensures x in UsedIds(rest) + {node[p].nodeid}
      {
        var q :| q in node && node[q].nodeid == x;
        if q != p { assert q in rest && rest[q] == node[q]; }
      }
      Subset(UsedIds(node), UsedIds(rest) + {node[p].nodeid});
    } else {
      assert UsedIds(node) == {};
    }
  }

  ghost function Span(n: nat): (r: set<nat>)
    ensures forall w :: w in r <==> 1 <= w <= n
  {
    if n == 0 then {} else Span(n - 1) + {n}
  }

  lemma {:induction false} SpanSize(n: nat)
    ensures |Span(n)| == n
  {
    if n > 0 {
      SpanSize(n - 1);
    }
  }

  lemma Subset(a: set<nat>, b: set<nat>)
    requires a <= b
    ensures |a| <= |b|
  {
    assert b == a + (b - a);
  }

  ghost function FreeId(node: Nodes): (w: nat)
    requires |node| < UNKNOWN_INO - 1
    ensures 1 <= w < UNKNOWN_INO && forall q | q in node :: node[q].nodeid != w
  {
    SomeFree(node);
    var w :| 1 <= w < UNKNOWN_INO && w !in UsedIds(node);
    w
  }

  lemma SomeFree(node: Nodes)
    requires |node| < UNKNOWN_INO - 1
    ensures exists w :: 1 <= w < UNKNOWN_INO && w !in UsedIds(node)
  {
    FewIds(node);
    SpanSize(UNKNOWN_INO - 1);
    if Span(UNKNOWN_INO - 1) <= UsedIds(node) {
      Subset(Span(UNKNOWN_INO - 1), UsedIds(node));
    } else {
      var w :| w in Span(UNKNOWN_INO - 1) && w !in UsedIds(node);
    }
  }

  // ----- what the requests rely on

  lemma RootTree(addr: int, n: Node)
    requires addr >= 0 && n.nodeid == ROOT_ID && n.refctr == 1 && n.parent == NIL && n.nlookup == 1
    ensures Tree(map[addr := n], addr, Looked(map[addr := n]), map[addr := 0])
    ensures Homes(map[addr := n.nodeid % TABLE_SIZE], map[], map[addr := n], {})
    ensures OneHeap(map[addr := NIL], map[addr := NIL], map[addr := n])
  {
    var node := map[addr := n];
    assert Children(node, addr) == {};
    assert Looked(node) == {addr};
    assert CountIs(node, {addr}, addr);
  }

  lemma FreshFacts(node: Nodes, node': Nodes, root: int, held: set<int>, rank: map<int, nat>, p: int, n: Node, parent: nat, name: string)
    requires Tree(node, root, held, rank) && p !in node && p >= 0 && n.refctr == 1 && n.parent == NIL && n.name.None?
    requires node' == node[p := n] && Unused(node, n.nodeid)
    requires Known(node, parent, {}) && NameFree(node, parent, name)
    ensures Tree(node', root, held + {p}, rank[p := 0]) && root in node && p != root
    ensures Known(node', parent, {p}) && Clear(node', rank[p := 0], parent, p) && NameFree(node', parent, name)
    ensures Shaped(node, root)
  {
    hide Tree, Known, Clear, NameFree, IdHome, NameHome, Named;
    FreshTree(node, root, held, rank, p, n);
    TreeParts(node, root, held, rank);
    TreeParts(node', root, held + {p}, rank[p := 0]);
    FreshPlaces(node, node', root, rank[p := 0], p, n, parent, name);
  }

  lemma FreshPlaces(node: Nodes, node': Nodes, root: int, rank: map<int, nat>, p: int, n: Node, parent: nat, name: string)
    requires Shaped(node, root) && Ranked(node', rank) && p !in node && node' == node[p := n] && n.parent == NIL && p >= 0
    requires Known(node, parent, {}) && NameFree(node, parent, name) && Unused(node, n.nodeid)
    ensures Known(node', parent, {p}) && Clear(node', rank, parent, p) && NameFree(node', parent, name)
  {
    var d :| d in node && node[d].nodeid == parent;
    assert d in node' && d !in {p} && node'[d].nodeid == parent;
    forall x | x in node'
      ensures node'[x].parent != p
    {
      assert x != p ==> Placed(node, root, x);
    }
    forall q | q in node' && node'[q].nodeid == parent
      ensures !Under(node', rank, q, p)
    {
      NothingUnder(node', rank, q, p);
    }
    forall q
      ensures !Named(node', q, parent, name)
    {
      assert !Named(node, q, parent, name);
      assert NIL in node ==> Placed(node, root, NIL);
    }
  }

  lemma FreshHomes(node: Nodes, node': Nodes, root: int, p: int, n: Node, idHome: map<int, int>, nameHome: map<int, int>)
    requires Shaped(node, root) && p !in node && node' == node[p := n] && n.parent == NIL && p >= 0
    requires Homes(idHome, nameHome, node, {})
    ensures p !in idHome && p !in nameHome && Homes(idHome, nameHome, node', {p})
  {
    hide NameHome, NameHash;
    forall x
      ensures x in NameHome(node', NameHash) <==> x in NameHome(node, NameHash)
      ensures x in NameHome(node, NameHash) ==> NameHome(node', NameHash)[x] == NameHome(node, NameHash)[x]
    {
      NamedHome(node, x, NameHash);
      NamedHome(node', x, NameHash);
      if x in node { assert Placed(node, root, x); }
      assert NIL in node ==> Placed(node, root, NIL);
    }
    NamedHome(node, p, NameHash);
  }

  lemma FreshHeap(idNext: map<int, int>, nameNext: map<int, int>, node: Nodes, p: int, n: Node)
    requires OneHeap(idNext, nameNext, node)
    ensures OneHeap(idNext[p := NIL], nameNext[p := NIL], node[p := n])
  {
  }

  lemma FreshNamed(node: Nodes, node': Nodes, p: int, n: Node, d: int, parent: nat, name: string)
    requires p !in node && d in node[p := n] && d != p && node[p := n][d].nodeid == parent && n.nlookup == 0
    requires node' == Attached(node[p := n], p, d, name)
    ensures Named(node', p, parent, name) && node'.Keys == node.Keys + {p} && OthersKept(node, node', {p})
    ensures node'[p].nlookup == 0 && node'[p].nodeid == n.nodeid && node'[p].generation == n.generation
    ensures Looked(node') == Looked(node)
  {
    assert forall q | q in node && q != d :: node'[q] == node[q];
    assert node'[d].nlookup == node[d].nlookup;
  }

  lemma IdHomeWhole(node: Nodes, p: int, idHome: map<int, int>, nameHome: map<int, int>)
    requires p in node && Homes(idHome, nameHome, node, {p})
    ensures p !in idHome && Homes(idHome[p := node[p].nodeid % TABLE_SIZE], nameHome, node, {})
  {
    hide NameHome, NameHash;
  }

  lemma NamedIn(node: Nodes, p: int, parent: nat, name: string)
    requires Named(node, p, parent, name)
    ensures p in node && node[p].parent in node && node[p].name.Some?
  {
  }

  /** A named node has lookups. */
  lemma NamedHeld(node: Nodes, root: int, held: set<int>, rank: map<int, nat>, p: int, parent: nat, name: string)
    requires Tree(node, root, held, rank) && Named(node, p, parent, name)
    ensures p in held
  {
    assert CountIs(node, held, p);
    assert Placed(node, root, p);
    assert NIL in node ==> Placed(node, root, NIL);
  }

  lemma LookedIn(node: Nodes)
    ensures forall d | d in Looked(node) :: d in node && node[d].nlookup > 0
    ensures forall id :: (exists d :: d in Looked(node) && node[d].nodeid == id) ==> Known(node, id, {})
  {
    forall id | exists d :: d in Looked(node) && node[d].nodeid == id
      ensures Known(node, id, {})
    {
      var d :| d in Looked(node) && node[d].nodeid == id;
      assert d in node && d !in {} && node[d].nodeid == id;
    }
  }

  /** A change of one lookup count leaves the tree as it is. */
  lemma RelookedFacts(node: Nodes, root: int, held: set<int>, rank: map<int, nat>, p: int, n: nat)
    requires Tree(node, root, held, rank) && p in node && p in held && held == Looked(node) + {p}
    ensures var node' := node[p := node[p].(nlookup := n)];
            && Tree(node', root, held, rank) && held == Looked(node') + {p}
            && (n > 0 ==> held == Looked(node')) && (n == 0 ==> Looked(node') == held - {p})
  {
    hide Tree;
    RelookedTree(node, root, held, rank, p, n);
    var node' := node[p := node[p].(nlookup := n)];
    forall x
      ensures x in Looked(node) && x != p <==> x in Looked(node') && x != p
    {
    }
  }

  lemma RelookedHomes(node: Nodes, p: int, n: nat, idHome: map<int, int>, nameHome: map<int, int>)
    requires p in node && Homes(idHome, nameHome, node, {})
    ensures Homes(idHome, nameHome, node[p := node[p].(nlookup := n)], {})
  {
    hide NameHome, NameHash;
    var node' := node[p := node[p].(nlookup := n)];
    forall x
      ensures x in NameHome(node', NameHash) <==> x in NameHome(node, NameHash)
      ensures x in NameHome(node, NameHash) ==> NameHome(node', NameHash)[x] == NameHome(node, NameHash)[x]
    {
      NamedHome(node, x, NameHash);
      NamedHome(node', x, NameHash);
    }
  }

  lemma RelookedNamed(node0: Nodes, node: Nodes, p: int, n: nat, parent: nat, name: string)
    requires p in node && Named(node, p, parent, name)
    ensures var node' := node[p := node[p].(nlookup := n)];
            Named(node', p, parent, name) && (OthersKept(node0, node, {p}) ==> OthersKept(node0, node', {p}))
  {
  }

  // ----- forgetting and unlinking

  /** What is left of a node whose lookups are all forgotten: it stays, nameless, while it has children. */
  ghost predicate Forgotten(before: Nodes, after: Nodes, p: int) {
    && OthersKept(before, after, {p})
    && (p in after <==> Children(after, p) != {})
    && (p in after ==> p in before && after[p].nodeid == before[p].nodeid && after[p].generation == before[p].generation
                       && after[p].nlookup == 0 && after[p].parent == NIL && after[p].name.None?)
  }

  lemma Releasing(node: Nodes, root: int, held: set<int>, rank: map<int, nat>, p: int, idHome: map<int, int>, nameHome: map<int, int>)
    requires Tree(node, root, held, rank) && p in held && p in node && p != root && node[p].parent == NIL
    requires Homes(idHome, nameHome, node, {})
    ensures node[p].refctr > 0 && Tree(Unref(node, p), root, held - {p}, rank)
    ensures node[p].refctr == 1 ==> node[p].name.None? && p in idHome && idHome[p] == node[p].nodeid % TABLE_SIZE && p !in nameHome
    ensures Homes(idHome - (if node[p].refctr == 1 then {p} else {}), nameHome, Unref(node, p), {})
  {
    hide Tree, NameHome, NameHash, Unref;
    ReleasedTree(node, root, held, rank, p);
    ReleasedHomes(node, root, held, rank, p, TABLE_SIZE, NameHash);
  }

  lemma SameNode(node: Nodes, p: int, q: int)
    requires UniqueIds(node) && p in node && q in node && node[p].nodeid == node[q].nodeid
    ensures p == q
  {
  }

  lemma NamedParent(node: Nodes, root: int, held: set<int>, rank: map<int, nat>, p: int, dir: nat, name: string)
    requires Tree(node, root, held, rank) && Named(node, p, dir, name)
    ensures p in node && p in held && node[p].parent != NIL && p != root
  {
    NamedHeld(node, root, held, rank, p, dir, name);
    assert Placed(node, root, p);
    assert NIL in node ==> Placed(node, root, NIL);
  }

  /** Unlinking a name leaves every other node alone, except a parent that nothing refers to any more. */
  lemma DetachedKept(node: Nodes, root: int, held: set<int>, rank: map<int, nat>, p: int)
    requires Tree(node, root, held, rank) && p in node && node[p].parent != NIL && Looked(node) <= held
    ensures node[p].parent in node && p in Detached(node, p)
    ensures OthersKept(node, Detached(node, p), {p}) && Looked(Detached(node, p)) == Looked(node)
    ensures Detached(node, p)[p] == node[p].(name := None, parent := NIL)
  {
    hide CountIs, UniqueIds, UniqueNames, Ranked, Placed;
    LastChild(node, root, held, rank, p);
    var node', q := Detached(node, p), node[p].parent;
    forall x
      ensures x in Looked(node') <==> x in Looked(node)
    {
    }
  }

  lemma KeptTwice(a: Nodes, b: Nodes, c: Nodes, changed: set<int>)
    requires OthersKept(a, b, changed) && OthersKept(b, c, changed)
    ensures OthersKept(a, c, changed)
  {
  }

  lemma TreeNil(node1: Nodes, node2: Nodes, root: int, held: set<int>, rank: map<int, nat>, p: int)
    requires Tree(node1, root, held, rank) && p in node1
    requires node1[p].parent == NIL ==> node2 == node1
    requires node1[p].parent != NIL ==> node1[p].parent in node1 && node2 == Detached(node1, p)
    ensures p in node2 && node2[p].parent == NIL
  {
  }

  lemma UnrefKept(node: Nodes, root: int, held: set<int>, rank: map<int, nat>, p: int)
    requires Tree(node, root, held, rank) && p in node && p in held && node[p].parent == NIL && p != root && node[p].nlookup == 0
    ensures OthersKept(node, Unref(node, p), {p}) && Looked(Unref(node, p)) == Looked(node)
    ensures p in Unref(node, p) <==> Children(Unref(node, p), p) != {}
    ensures p in Unref(node, p) ==> Unref(node, p)[p] == node[p].(refctr := node[p].refctr - 1)
    ensures node[p].name.None?
  {
    assert CountIs(node, held, p);
    assert Placed(node, root, p);
    assert Children(Unref(node, p), p) == Children(node, p);
  }

  /** The steps of forget_node put together. */
  lemma ForgetSteps(node0: Nodes, node1: Nodes, node2: Nodes, node3: Nodes, root: int, held: set<int>, rank: map<int, nat>, p: int)
    requires p in node0 && node1 == node0[p := node0[p].(nlookup := 0)]
    requires Tree(node1, root, held, rank) && p in held && p != root && held == Looked(node0) && Looked(node1) == held - {p}
    requires node1[p].parent == NIL ==> node2 == node1
    requires node1[p].parent != NIL ==> node1[p].parent in node1 && node2 == Detached(node1, p)
    requires Tree(node2, root, held, rank) && p in node2 && node3 == Unref(node2, p)
    ensures Forgotten(node0, node3, p) && Looked(node3) == held - {p}
  {
    hide Tree, Unref, Detached, OthersKept, Looked, Children;
    LookedZero(node0, node1, p);
    if node1[p].parent != NIL {
      DetachedKept(node1, root, held, rank, p);
    } else {
      KeptSame(node1, {p});
    }
    UnrefKept(node2, root, held, rank, p);
    KeptTwice(node0, node1, node2, {p});
    KeptTwice(node0, node2, node3, {p});
  }

  lemma KeptSame(node: Nodes, changed: set<int>)
    ensures OthersKept(node, node, changed)
  {
  }

  lemma LookedZero(node0: Nodes, node1: Nodes, p: int)
    requires p in node0 && node1 == node0[p := node0[p].(nlookup := 0)]
    ensures OthersKept(node0, node1, {p}) && Looked(node1) <= Looked(node0)
  {
  }

  // ----- renaming

  /** The node has its new place, the one found there has lost its name, all others are as before. */
  ghost predicate Moved(before: Nodes, after: Nodes, p: int, other: int, olddir: nat, oldname: string, newdir: nat, newname: string) {
    && Named(before, p, olddir, oldname) && Named(after, p, newdir, newname)
    && after[p].nodeid == before[p].nodeid && after[p].generation == before[p].generation && after[p].nlookup == before[p].nlookup
    && (if NameFree(before, newdir, newname) then other == NIL
        else
          && Named(before, other, newdir, newname)
          && (other != p ==> other in after && Alike(after[other], before[other].(name := None, parent := NIL))))
    && OthersKept(before, after, {p, other})
  }

  /** How unhash_name changes the nodes: not at all for a nameless node. */
  ghost predicate Unnamed(before: Nodes, after: Nodes, p: int) {
    && p in before
    && (before[p].parent == NIL ==> after == before)
    && (before[p].parent != NIL ==> before[p].parent in before && after == Detached(before, p))
  }

  /** No name appears, no node moves up or down, and no id changes when a node loses its name. */
  lemma UnnamedFacts(before: Nodes, after: Nodes, root: int, held: set<int>, rank: map<int, nat>, p: int)
    requires Tree(before, root, held, rank) && Unnamed(before, after, p) && Looked(before) <= held
    ensures Looked(after) == Looked(before) && OthersKept(before, after, {p}) && p in after && after[p].parent == NIL
    ensures after[p] == if before[p].parent == NIL then before[p] else before[p].(name := None, parent := NIL)
    ensures forall q, dir, name :: Named(after, q, dir, name) ==> Named(before, q, dir, name) && q != p
    ensures forall q | q in after :: q in before && after[q].nodeid == before[q].nodeid
                                     && (after[q].parent == before[q].parent || after[q].parent == NIL)
  {
    hide CountIs, UniqueIds, UniqueNames, Ranked;
    assert NIL in before ==> Placed(before, root, NIL);
    if before[p].parent != NIL {
      DetachedKept(before, root, held, rank, p);
      LastChild(before, root, held, rank, p);
    }
  }

  lemma {:induction false} UnderLess(before: Nodes, after: Nodes, rank: map<int, nat>, q: int, p: int)
    requires Ranked(before, rank) && Ranked(after, rank) && q in after && NIL !in before
    requires forall x | x in after :: x in before && (after[x].parent == before[x].parent || after[x].parent == NIL)
    requires !Under(before, rank, q, p)
    ensures !Under(after, rank, q, p)
    decreases rank[q]
  {
    if after[q].parent in after { UnderLess(before, after, rank, after[q].parent, p); }
  }

  lemma ClearKept(before: Nodes, after: Nodes, root: int, held: set<int>, rank: map<int, nat>, x: int, id: nat, p: int)
    requires Tree(before, root, held, rank) && Tree(after, root, held, rank) && Unnamed(before, after, x) && Looked(before) <= held
    requires Clear(before, rank, id, p)
    ensures Clear(after, rank, id, p)
  {
    hide CountIs, UniqueIds, UniqueNames, Unnamed, OthersKept, Ranked, Looked;
    UnnamedFacts(before, after, root, held, rank, x);
    TreeParts(before, root, held, rank);
    TreeParts(after, root, held, rank);
    assert NIL in before ==> Placed(before, root, NIL);
    forall q | q in after && after[q].nodeid == id
      ensures !Under(after, rank, q, p)
    {
      UnderLess(before, after, rank, q, p);
    }
  }

  /** The states a rename goes through before it gives the new name. */
  ghost predicate Stages(node0: Nodes, node1: Nodes, node2: Nodes, root: int, held: set<int>, rank: map<int, nat>, p: int, other: int) {
    && Tree(node0, root, held, rank) && Tree(node1, root, held, rank) && Tree(node2, root, held, rank) && held == Looked(node0)
    && (if other == NIL then node1 == node0 else Unnamed(node0, node1, other))
    && Unnamed(node1, node2, p)
  }

  lemma RenameReady(node0: Nodes, node1: Nodes, node2: Nodes, root: int, held: set<int>, rank: map<int, nat>, p: int, other: int,
                    olddir: nat, oldname: string, newdir: nat, newname: string)
    requires Stages(node0, node1, node2, root, held, rank, p, other) && MayMove(node0, rank, olddir, oldname, newdir)
    requires Named(node0, p, olddir, oldname) && (if other == NIL then NameFree(node0, newdir, newname) else Named(node0, other, newdir, newname))
    ensures Known(node2, newdir, {}) && Clear(node2, rank, newdir, p) && NameFree(node2, newdir, newname)
    ensures p in node2 && node2[p].parent == NIL
  {
    hide Tree, Unnamed, Clear, Named, OthersKept, Looked, Alike;
    if other != NIL {
      UnnamedFacts(node0, node1, root, held, rank, other);
      ClearKept(node0, node1, root, held, rank, other, newdir, p);
      TreeParts(node0, root, held, rank);
      OnlyOne(node0, root, other, newdir, newname);
    }
    UnnamedFacts(node1, node2, root, held, rank, p);
    ClearKept(node1, node2, root, held, rank, p, newdir, p);
    LookedIn(node0);
    var d :| d in held && node0[d].nodeid == newdir;
    TreeParts(node1, root, held, rank);
    TreeParts(node2, root, held, rank);
    assert d in node2 && d !in {} && node2[d].nodeid == newdir;
  }

  lemma RenameDone(node0: Nodes, node1: Nodes, node2: Nodes, node3: Nodes, root: int, held: set<int>, rank: map<int, nat>,
                   p: int, other: int, d: int, olddir: nat, oldname: string, newdir: nat, newname: string)
    requires Stages(node0, node1, node2, root, held, rank, p, other)
    requires Named(node0, p, olddir, oldname) && (if other == NIL then NameFree(node0, newdir, newname) else Named(node0, other, newdir, newname))
    requires p in node2 && d in node2 && p != d && node2[d].nodeid == newdir && node3 == Attached(node2, p, d, newname)
    ensures Moved(node0, node3, p, other, olddir, oldname, newdir, newname) && Looked(node3) == held
  {
    hide Tree, Unnamed, OthersKept, Looked, Alike;
    if other != NIL {
      UnnamedFacts(node0, node1, root, held, rank, other);
      NamedParent(node0, root, held, rank, other, newdir, newname);
      LookedIn(node0);
    } else {
      KeptSame(node0, {p, other});
    }
    UnnamedFacts(node1, node2, root, held, rank, p);
    MoreChanged(node0, node1, {other}, {p, other});
    MoreChanged(node1, node2, {p}, {p, other});
    AttachedKept(node2, p, d, newname);
    MoreChanged(node2, node3, {p}, {p, other});
    KeptTwice(node0, node1, node2, {p, other});
    KeptTwice(node0, node2, node3, {p, other});
    MovedNodes(node0, node1, node2, node3, p, other, d, newname);
  }

  lemma MovedNodes(node0: Nodes, node1: Nodes, node2: Nodes, node3: Nodes, p: int, other: int, d: int, name: string)
    requires p in node0 && p in node2 && d in node2 && p != d && node3 == Attached(node2, p, d, name)
    requires p == other || node1 == node0 || OthersKept(node0, node1, {other})
    requires p in node1 && (p == other ==> node1[p] == node0[p] || node1[p] == node0[p].(name := None, parent := NIL))
    requires node2[p] == node1[p] || node2[p] == node1[p].(name := None, parent := NIL)
    requires other != NIL && other != p ==>
               && other in node0 && other in node1 && (node1[other] == node0[other] || node1[other] == node0[other].(name := None, parent := NIL))
               && node1[other].parent == NIL && node1[other].name.None? && OthersKept(node1, node2, {p}) && node1[other].nlookup > 0
    ensures node3[p].nodeid == node0[p].nodeid && node3[p].generation == node0[p].generation && node3[p].nlookup == node0[p].nlookup
    ensures other != NIL && other != p ==> other in node3 && Alike(node3[other], node0[other].(name := None, parent := NIL))
  {
  }

  lemma MoreChanged(a: Nodes, b: Nodes, small: set<int>, big: set<int>)
    requires small <= big
    ensures OthersKept(a, b, small) ==> OthersKept(a, b, big)
  {
  }

  lemma AttachedKept(node: Nodes, p: int, d: int, name: string)
    requires p in node && d in node && p != d
    ensures OthersKept(node, Attached(node, p, d, name), {p}) && Looked(Attached(node, p, d, name)) == Looked(node)
    ensures Named(Attached(node, p, d, name), p, node[d].nodeid, name)
  {
    var node' := Attached(node, p, d, name);
    forall x
      ensures x in Looked(node') <==> x in Looked(node)
    {
    }
  }
}
