/**
 Path reconstruction: the names from a node up to the root, written from the end of a buffer
 towards its start; the buffer grows when it is full.
 */
module InodePath {
  import opened Sequences
  import opened NodeChains
  import opened NodeTree
  import opened InodeTable

  const MAX_BUFFER: nat := 0xffffffff

  // ----- what a path is

  /** A node and all nodes above it, the topmost first. */
  ghost function Line(node: Nodes, rank: map<int, nat>, p: int): (r: seq<int>)
    requires Ranked(node, rank) && p in node
    ensures r != [] && r[|r| - 1] == p && forall i | 0 <= i < |r| :: r[i] in node
    decreases rank[p]
  {
    if node[p].parent in node then Line(node, rank, node[p].parent) + [p] else [p]
  }

  /** The names along a line, leaving out the root. */
  ghost function NamesAlong(node: Nodes, line: seq<int>): seq<string> {
    if line == [] then [] else
      NamesAlong(node, line[..|line| - 1]) +
      (var q := line[|line| - 1]; if q in node && node[q].nodeid != ROOT_ID && node[q].name.Some? then [node[q].name.value] else [])
  }

  function Slashed(names: seq<string>): string {
    if names == [] then "" else Slashed(names[..|names| - 1]) + "/" + names[|names| - 1]
  }

  /** Every node on the line but the root has a name. */
  ghost predicate AllNamed(node: Nodes, line: seq<int>) {
    forall i | 0 <= i < |line| :: line[i] in node && (node[line[i]].nodeid != ROOT_ID ==> node[line[i]].name.Some?)
  }

  lemma {:induction false} SlashedAppend(a: seq<string>, b: seq<string>)
    ensures Slashed(a + b) == Slashed(a) + Slashed(b)
  {
    if b == [] {
      assert a + b == a;
    } else {
      assert (a + b)[..|a + b| - 1] == a + b[..|b| - 1];
      SlashedAppend(a, b[..|b| - 1]);
    }
  }

  lemma {:induction false} NamesAppend(node: Nodes, a: seq<int>, b: seq<int>)
    ensures NamesAlong(node, a + b) == NamesAlong(node, a) + NamesAlong(node, b)
  {
    if b == [] {
      assert a + b == a;
    } else {
      assert (a + b)[..|a + b| - 1] == a + b[..|b| - 1];
      NamesAppend(node, a, b[..|b| - 1]);
    }
  }

  // ----- the buffer

  class PathBuffer {
    var buf: array<char>
    var s: nat

    ghost predicate Valid()
      reads this, buf
    {
      0 < buf.Length <= MAX_BUFFER && s < buf.Length && buf[buf.Length - 1] == '\0'
    }

    /** The C string at `s`. */
    ghost function Text(): string
      requires Valid()
      reads this, buf
    {
      buf[s..buf.Length - 1]
    }

    constructor ()
      ensures Valid() && fresh(buf) && Text() == ""
    {
      buf := new char[256](_ => '\0');
      s := 255;
    }

    /** The size that the buffer grows to: doubled until the text fits. */
    method NewSize(needed: nat) returns (size: nat)
      requires Valid() && needed <= MAX_BUFFER
      ensures needed <= size <= MAX_BUFFER && size >= buf.Length
    {
      size := buf.Length;
      while size < needed
        invariant buf.Length <= size <= MAX_BUFFER
        decreases MAX_BUFFER - size
      {
        if size >= 0x80000000 {
          size := MAX_BUFFER;
        } else {
          size := size * 2;
        }
      }
    }

    /** realloc, then the text moved to the end of the larger buffer. */
    method Grow(size: nat)
      requires Valid() && buf.Length <= size <= MAX_BUFFER
      modifies this
      ensures Valid() && fresh(buf) && buf.Length == size && Text() == old(Text()) && size - s == old(buf.Length - s)
    {
      var pathlen, bufsize := buf.Length - s, buf.Length;
      ghost var before := buf[..];
      var newbuf := Realloc(buf, size);
      PrefixSlice(before, newbuf[..], s);
      assert newbuf[..][s..bufsize] == newbuf[s..bufsize];
      Move(newbuf, bufsize - pathlen, size - pathlen, pathlen);
      assert newbuf[..][size - pathlen..] == newbuf[size - pathlen..size];
      SameText(before, s, newbuf[..], size - pathlen);
      buf, s := newbuf, size - pathlen;
    }

    /** What is handed to the caller: the text, or the root directory for an empty one. */
    method Finish() returns (path: string)
      requires Valid() && (Text() == "" || Text()[0] == '/')
      ensures path == if Text() == "" then "/" else Text()
    {
      if buf[s] != '\0' {
        path := buf[s..buf.Length - 1];
      } else {
        path := "/";
      }
    }

    /** add_name */
    method AddName(name: string)
      requires Valid() && |Text()| + |name| + 2 <= MAX_BUFFER
      modifies this, buf
      ensures Valid() && (buf == old(buf) || fresh(buf))
      ensures Text() == "/" + name + old(Text())
    {
      if s <= |name| {
        var size := NewSize(buf.Length - s + |name| + 1);
        Grow(size);
      }
      Put(name);
      ghost var text := Text();
      Put("/");
      assert Text() == "/" + text == "/" + name + old(Text());
    }

    /** A string written just before the text. */
    method Put(name: string)
      requires Valid() && |name| <= s
      modifies this`s, buf
      ensures Valid() && s == old(s) - |name| && Text() == name + old(Text())
    {
      ghost var before, n := buf[..], buf.Length;
      var to := s - |name|;
      Copy(buf, to, name);
      assert buf[to..s] == name;
      assert buf[s..n - 1] == before[s..n - 1];
      s := to;
      assert buf[to..n - 1] == buf[to..old(s)] + buf[old(s)..n - 1];
    }
  }

  lemma SameText(a: string, s: nat, b: string, t: nat)
    requires s < |a| && t < |b| && a[s..] == b[t..]
    ensures a[s..|a| - 1] == b[t..|b| - 1] && a[|a| - 1] == b[|b| - 1]
  {
    var n := |a| - s;
    assert a[s..][n - 1] == b[t..][n - 1];
    assert a[s..|a| - 1] == a[s..][..n - 1];
    assert b[t..|b| - 1] == b[t..][..n - 1];
  }

  lemma PrefixSlice(a: string, b: string, s: nat)
    requires s <= |a| <= |b| && b[..|a|] == a
    ensures b[s..|a|] == a[s..]
  {
    assert b[s..|a|] == b[..|a|][s..];
  }

  /** realloc: the old contents stay at the front. */
  method Realloc(a: array<char>, size: nat) returns (b: array<char>)
    requires a.Length <= size
    ensures fresh(b) && b.Length == size && b[..a.Length] == a[..]
  {
    b := new char[size](_ => '\0');
    forall i | 0 <= i < a.Length {
      b[i] := a[i];
    }
  }

  /** memcpy */
  method Copy(a: array<char>, to: nat, chunk: string)
    requires to + |chunk| <= a.Length
    modifies a
    ensures a[..to] == old(a[..to]) && a[to..to + |chunk|] == chunk && a[to + |chunk|..] == old(a[to + |chunk|..])
  {
    forall i | 0 <= i < |chunk| {
      a[to + i] := chunk[i];
    }
  }

  /** memmove */
  method Move(a: array<char>, from: nat, to: nat, len: nat)
    requires from + len <= a.Length && to + len <= a.Length
    modifies a
    ensures a[to..to + len] == old(a[from..from + len])
  {
    var chunk := a[from..from + len];
    Copy(a, to, chunk);
  }

  // ----- the climb

  function Tail(name: Option<string>): string {
    if name.Some? then "/" + name.value else ""
  }

  /** Where the climb stands: `below` has been written, `p` is next. */
  ghost predicate Climbed(node: Nodes, rank: map<int, nat>, start: int, p: int, below: seq<int>) {
    Ranked(node, rank) && start in node && p in node && Line(node, rank, start) == Line(node, rank, p) + below && AllNamed(node, below)
  }

  /** What the climb still has to write fits, as the whole path does. */
  lemma ClimbFits(node: Nodes, rank: map<int, nat>, start: int, p: int, below: seq<int>)
    requires Climbed(node, rank, start, p, below) && node[p].nodeid != ROOT_ID && node[p].name.Some?
    ensures Slashed(NamesAlong(node, [p] + below)) == "/" + node[p].name.value + Slashed(NamesAlong(node, below))
    ensures |Slashed(NamesAlong(node, below))| + 1 + |node[p].name.value| <= |Slashed(NamesAlong(node, Line(node, rank, start)))|
  {
    var names := NamesAlong(node, below);
    NamesAppend(node, [p], below);
    NamesOne(node, p);
    SlashedAppend([node[p].name.value], names);
    SlashedOne(node[p].name.value);
    var line := Line(node, rank, p);
    var above := line[..|line| - 1];
    assert line == above + [p];
    assert line + below == above + ([p] + below);
    NamesAppend(node, above, [p] + below);
    SlashedAppend(NamesAlong(node, above), NamesAlong(node, [p] + below));
  }

  lemma NamesOne(node: Nodes, p: int)
    requires p in node && node[p].nodeid != ROOT_ID && node[p].name.Some?
    ensures NamesAlong(node, [p]) == [node[p].name.value]
  {
    assert [p][..0] == [];
  }

  lemma SlashedOne(name: string)
    ensures Slashed([name]) == "/" + name
  {
    assert [name][..0] == [];
  }

  lemma ClimbStep(node: Nodes, root: int, rank: map<int, nat>, start: int, p: int, below: seq<int>)
    requires Shaped(node, root) && UniqueIds(node) && Climbed(node, rank, start, p, below)
    requires node[p].nodeid != ROOT_ID && node[p].name.Some?
    ensures node[p].parent in node && RankOf(rank, node[p].parent) < RankOf(rank, p)
    ensures Climbed(node, rank, start, node[p].parent, [p] + below)
  {
    assert Placed(node, root, p);
    var line := Line(node, rank, node[p].parent);
    assert line + [p] + below == line + ([p] + below);
  }

  lemma ClimbTop(node: Nodes, root: int, rank: map<int, nat>, start: int, p: int, below: seq<int>)
    requires Shaped(node, root) && UniqueIds(node) && Climbed(node, rank, start, p, below)
    ensures node[p].nodeid == ROOT_ID ==> AllNamed(node, Line(node, rank, start))
                                          && NamesAlong(node, Line(node, rank, start)) == NamesAlong(node, below)
    ensures node[p].nodeid != ROOT_ID && node[p].name.None? ==> !AllNamed(node, Line(node, rank, start))
  {
    var all, line := Line(node, rank, start), Line(node, rank, p);
    if node[p].nodeid == ROOT_ID {
      assert p == root;
      assert NIL in node ==> Placed(node, root, NIL);
      assert line == [p];
      NamesAppend(node, [p], below);
      assert [p][..0] == [];
      assert forall i | 0 < i < |all| :: all[i] == below[i - 1];
    } else if node[p].name.None? {
      assert all[|line| - 1] == p;
    }
  }

  /** The loop of get_path_name: from a node up to the root, or to a node without a name. */
  method Climb(t: Table, b: PathBuffer, first: int, ghost tail: string) returns (named: bool)
    requires Shaped(t.node, t.root) && UniqueIds(t.node) && Ranked(t.node, t.rank) && first in t.node
    requires b.Valid() && b.Text() == tail && (tail == "" || tail[0] == '/')
    requires |Slashed(NamesAlong(t.node, Line(t.node, t.rank, first)))| + |tail| + 1 <= MAX_BUFFER
    modifies b, b.buf
    ensures b.Valid() && (b.Text() == "" || b.Text()[0] == '/')
    ensures named <==> AllNamed(t.node, Line(t.node, t.rank, first))
    ensures named ==> b.Text() == Slashed(NamesAlong(t.node, Line(t.node, t.rank, first))) + tail
  {
    hide Line, NamesAlong, Slashed, Climbed, AllNamed, Ranked, Shaped, UniqueIds, PathBuffer.Valid, PathBuffer.Text, RankOf;
    ghost var node, rank := t.node, t.rank;
    var p := first;
    ghost var below: seq<int> := [];
    ClimbStart(node, rank, first);
    while p != NIL && t.node[p].nodeid != ROOT_ID
      invariant p in node && Climbed(node, rank, first, p, below)
      invariant b.Valid() && (b.buf == old(b.buf) || fresh(b.buf)) && b.Text() == Slashed(NamesAlong(node, below)) + tail
      invariant b.Text() == "" || b.Text()[0] == '/'
      decreases RankOf(rank, p)
    {
      ClimbTop(node, t.root, rank, first, p, below);
      if t.node[p].name.None? {
        return false;
      }
      ClimbFits(node, rank, first, p, below);
      ClimbStep(node, t.root, rank, first, p, below);
      b.AddName(t.node[p].name.value);
      below := [p] + below;
      p := t.node[p].parent;
    }
    ParentIs(node, t.root, p);
    ClimbTop(node, t.root, rank, first, p, below);
    named := true;
  }

  /**
   get_path_name: the slash-joined names of the ancestors, or nothing exactly if a node on
   the way to the root has no name.
   */
  method GetPathName(t: Table, nodeid: nat, name: Option<string>, ghost start: int) returns (r: Option<string>)
    requires t.Valid() && start in Looked(t.node) && t.node[start].nodeid == nodeid && Ranked(t.node, t.rank)
    requires |Slashed(NamesAlong(t.node, Line(t.node, t.rank, start)))| + |Tail(name)| + 1 <= MAX_BUFFER
    ensures r.Some? <==> AllNamed(t.node, Line(t.node, t.rank, start))
    ensures r.Some? ==> var path := Slashed(NamesAlong(t.node, Line(t.node, t.rank, start))) + Tail(name);
                        r.value == if path == "" then "/" else path
  {
    hide Line, NamesAlong, Slashed, AllNamed, Tree, Ranked, Table.Hashed, Clock;
    TreeParts(t.node, t.root, Looked(t.node), t.rank);
    var b := new PathBuffer();
    if name.Some? {
      b.AddName(name.value);
    }
    var p := t.GetHeld(nodeid, 0);
    SameNode(t.node, p, start);
    var named := Climb(t, b, p, Tail(name));
    if named {
      var path := b.Finish();
      r := Some(path);
    } else {
      r := None;
    }
  }

  ghost function RankOf(rank: map<int, nat>, p: int): nat {
    if p in rank then rank[p] else 0
  }

  lemma ClimbStart(node: Nodes, rank: map<int, nat>, start: int)
    requires Ranked(node, rank) && start in node
    ensures Climbed(node, rank, start, start, []) && Slashed(NamesAlong(node, [])) == ""
  {
    assert Line(node, rank, start) + [] == Line(node, rank, start);
  }
}
