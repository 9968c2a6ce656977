/**
 The POSIX record locks that libfuse-lite keeps for each file: one list for all owners, edited
 in a single pass that skips, merges, trims, splits and deletes.

 The meaning of a list is a map from (owner, offset) to the type held there; the pass is
 proved to overlay the request on that map and to keep each owner's locks sorted, disjoint
 and coalesced.
 */
module RecordLocks {
  import opened Sequences

  const OFFSET_MAX: int := 0x7fff_ffff_ffff_ffff

  datatype LockType = ReadLock | WriteLock | Unlock

  datatype Lock = Lock(typ: LockType, start: int, end: int, pid: int, owner: int)

  predicate ValidRange(l: Lock) {
    0 <= l.start <= l.end <= OFFSET_MAX
  }

  predicate Covers(l: Lock, o: int, x: int) {
    l.owner == o && l.start <= x <= l.end
  }

  /** The type that owner `o` holds at offset `x`. */
  function Held(locks: seq<Lock>, o: int, x: int): Option<LockType> {
    if locks == [] then None
    else if Covers(locks[0], o, x) then Some(locks[0].typ)
    else Held(locks[1..], o, x)
  }

  /** What a request leaves behind where it applies. */
  function Granted(req: Lock): Option<LockType> {
    if req.typ == Unlock then None else Some(req.typ)
  }

  /** The request laid over the list: the pointwise meaning of a lock call. */
  function Overlay(locks: seq<Lock>, req: Lock, o: int, x: int): Option<LockType> {
    if Covers(req, o, x) then Granted(req) else Held(locks, o, x)
  }

  /** `a` lies before `b`, with a gap if they could have been one lock. */
  predicate Precedes(a: Lock, b: Lock) {
    a.owner == b.owner ==> a.end < b.start && (a.typ == b.typ ==> a.end + 1 < b.start)
  }

  /** Each owner's locks are sorted, disjoint and coalesced. */
  ghost predicate WellFormed(locks: seq<Lock>) {
    && (forall i | 0 <= i < |locks| :: ValidRange(locks[i]) && locks[i].typ != Unlock)
    && (forall i, j | 0 <= i < j < |locks| :: Precedes(locks[i], locks[j]))
  }

  // ----- reading a list

  lemma {:induction false} HeldConcat(a: seq<Lock>, b: seq<Lock>, o: int, x: int)
    ensures Held(a + b, o, x) == if Held(a, o, x).Some? then Held(a, o, x) else Held(b, o, x)
  {
    if a == [] {
      assert a + b == b;
    } else {
      assert (a + b)[1..] == a[1..] + b;
      HeldConcat(a[1..], b, o, x);
    }
  }

  lemma {:induction false} HeldNone(a: seq<Lock>, o: int, x: int)
    requires forall i | 0 <= i < |a| :: !Covers(a[i], o, x)
    ensures Held(a, o, x) == None
  {
    if a != [] {
      HeldNone(a[1..], o, x);
    }
  }

  lemma HeldOne(l: Lock, o: int, x: int)
    ensures Held([l], o, x) == if Covers(l, o, x) then Some(l.typ) else None
  {
    assert [l][1..] == [];
  }

  /** The value held, read off a list taken apart around one lock. */
  lemma HeldAround(p: seq<Lock>, m: seq<Lock>, s: seq<Lock>, o: int, x: int)
    ensures Held(p + m + s, o, x) == if Held(p, o, x).Some? then Held(p, o, x)
                                     else if Held(m, o, x).Some? then Held(m, o, x)
                                     else Held(s, o, x)
  {
    HeldConcat(p + m, s, o, x);
    HeldConcat(p, m, o, x);
  }

  // ----- the state of the pass

  /** Every lock of the request's owner in `a` lies before the request. */
  ghost predicate AllBefore(a: seq<Lock>, req: Lock) {
    forall i | 0 <= i < |a| :: Precedes(a[i], req)
  }

  ghost predicate AllAfter(a: seq<Lock>, req: Lock) {
    forall i | 0 <= i < |a| :: Precedes(req, a[i])
  }

  /** Laying the request, as extended so far, over the list as edited so far still gives the answer. */
  ghost predicate SameMeaning(locks: seq<Lock>, lk: Lock, was: seq<Lock>, req: Lock) {
    forall o: int, x: int :: Overlay(locks, lk, o, x) == Overlay(was, req, o, x)
  }

  ghost predicate Pass(p: seq<Lock>, s: seq<Lock>, lk: Lock, was: seq<Lock>, req: Lock) {
    && WellFormed(p + s)
    && ValidRange(lk) && lk.typ == req.typ && lk.owner == req.owner && lk.pid == req.pid
    && (lk.typ == Unlock ==> lk == req)
    && AllBefore(p, lk)
    && SameMeaning(p + s, lk, was, req)
  }

  lemma WellFormedParts(p: seq<Lock>, m: seq<Lock>, s: seq<Lock>)
    requires WellFormed(p + m + s)
    ensures WellFormed(p + s) && WellFormed(p) && WellFormed(m) && WellFormed(s)
    ensures forall a, b | a in p && b in m + s :: Precedes(a, b)
    ensures forall a, b | a in m && b in s :: Precedes(a, b)
  {
    var t := p + m + s;
    assert forall i | 0 <= i < |p| :: p[i] == t[i];
    assert forall i | 0 <= i < |m| :: m[i] == t[|p| + i];
    assert forall i | 0 <= i < |s| :: s[i] == t[|p| + |m| + i];
    assert forall i | 0 <= i < |p + s| :: (p + s)[i] == if i < |p| then t[i] else t[i + |m|];
  }

  lemma WellFormedJoin(p: seq<Lock>, m: seq<Lock>, s: seq<Lock>)
    requires WellFormed(p) && WellFormed(m) && WellFormed(s)
    requires forall a, b | a in p && b in m + s :: Precedes(a, b)
    requires forall a, b | a in m && b in s :: Precedes(a, b)
    ensures WellFormed(p + m + s)
  {
    hide ValidRange, Precedes;
    var t := p + m + s;
    forall i, j | 0 <= i < j < |t|
      ensures Precedes(t[i], t[j])
    {
      if i < |p| {
        assert t[i] == p[i];
        if j < |p| { assert t[j] == p[j]; } else { assert t[j] == (m + s)[j - |p|]; }
      } else if i < |p| + |m| {
        assert t[i] == m[i - |p|];
        if j < |p| + |m| { assert t[j] == m[j - |p|]; } else { assert t[j] == s[j - |p| - |m|]; }
      } else {
        assert t[i] == s[i - |p| - |m|] && t[j] == s[j - |p| - |m|];
      }
    }
    forall i | 0 <= i < |t|
      ensures ValidRange(t[i]) && t[i].typ != Unlock
    {
      if i < |p| { assert t[i] == p[i]; }
      else if i < |p| + |m| { assert t[i] == m[i - |p|]; }
      else { assert t[i] == s[i - |p| - |m|]; }
    }
  }

  // ----- one edit

  /** The locks of `m` belong to the owner of `lk`. */
  ghost predicate Owned(m: seq<Lock>, lk: Lock) {
    forall i | 0 <= i < |m| :: m[i].owner == lk.owner
  }

  /** Where replacing `m` by `m'` and the request `lk` by `lk'` changes nothing at offset `x`. */
  ghost predicate Harmless(p: seq<Lock>, m: seq<Lock>, m': seq<Lock>, lk: Lock, lk': Lock, x: int) {
    var o := lk.owner;
    && (Covers(lk, o, x) ==> Covers(lk', o, x))
    && (Covers(lk', o, x) && !Covers(lk, o, x) ==> Held(p, o, x) == None && Held(m, o, x) == Granted(lk) && Granted(lk).Some?)
    && (!Covers(lk', o, x) ==> Held(m', o, x) == Held(m, o, x))
  }

  lemma Edit(p: seq<Lock>, m: seq<Lock>, m': seq<Lock>, s: seq<Lock>, lk: Lock, lk': Lock, was: seq<Lock>, req: Lock)
    requires Owned(m, lk) && Owned(m', lk) && lk'.owner == lk.owner && lk'.typ == lk.typ
    requires forall x: int :: Harmless(p, m, m', lk, lk', x)
    requires SameMeaning(p + m + s, lk, was, req)
    ensures SameMeaning(p + m' + s, lk', was, req)
  {
    forall o: int, x: int
      ensures Overlay(p + m' + s, lk', o, x) == Overlay(was, req, o, x)
    {
      hide Held;
      assert Overlay(p + m + s, lk, o, x) == Overlay(was, req, o, x);
      HeldAround(p, m, s, o, x);
      HeldAround(p, m', s, o, x);
      if o == lk.owner {
        assert Harmless(p, m, m', lk, lk', x);
      } else {
        HeldNone(m, o, x);
        HeldNone(m', o, x);
      }
    }
  }

  lemma NotBelow(p: seq<Lock>, l: Lock, x: int)
    requires forall a | a in p :: Precedes(a, l)
    requires l.start <= x
    ensures Held(p, l.owner, x) == None
  {
    forall i | 0 <= i < |p|
      ensures !Covers(p[i], l.owner, x)
    {
      assert p[i] in p;
    }
    HeldNone(p, l.owner, x);
  }

  /** The lock under the cursor is left alone: another owner's, or wholly before the request. */
  lemma Skip(p: seq<Lock>, l: Lock, s: seq<Lock>, lk: Lock, was: seq<Lock>, req: Lock)
    requires Pass(p, [l] + s, lk, was, req) && Precedes(l, lk)
    ensures Pass(p + [l], s, lk, was, req)
  {
    hide WellFormed, SameMeaning, Precedes, ValidRange;
    assert p + ([l] + s) == (p + [l]) + s;
  }

  /** A lock of the same type that touches the request is absorbed into it. */
  lemma Merge(p: seq<Lock>, l: Lock, s: seq<Lock>, lk: Lock, lk': Lock, was: seq<Lock>, req: Lock)
    requires Pass(p, [l] + s, lk, was, req)
    requires l.owner == lk.owner && l.typ == lk.typ && lk.start - 1 <= l.end && l.start - 1 <= lk.end
    requires lk' == lk.(start := if l.start < lk.start then l.start else lk.start,
                        end := if lk.end < l.end then l.end else lk.end)
    ensures Pass(p, s, lk', was, req)
  {
    hide SameMeaning;
    assert p + ([l] + s) == p + [l] + s && p + s == p + [] + s;
    WellFormedParts(p, [l], s);
    assert [l][0] == l && l in [l] + s;
    forall x: int
      ensures Harmless(p, [l], [], lk, lk', x)
    {
      HeldOne(l, l.owner, x);
      if l.start <= x { NotBelow(p, l, x); }
    }
    Edit(p, [l], [], s, lk, lk', was, req);
    forall i | 0 <= i < |p|
      ensures Precedes(p[i], lk')
    {
      assert p[i] in p && Precedes(p[i], l) && Precedes(p[i], lk);
    }
  }

  /** A lock of another type inside the request is deleted. */
  lemma Delete(p: seq<Lock>, l: Lock, s: seq<Lock>, lk: Lock, was: seq<Lock>, req: Lock)
    requires Pass(p, [l] + s, lk, was, req)
    requires l.owner == lk.owner && lk.start <= l.start && l.end <= lk.end
    ensures Pass(p, s, lk, was, req)
  {
    hide SameMeaning;
    assert p + ([l] + s) == p + [l] + s && p + s == p + [] + s;
    WellFormedParts(p, [l], s);
    forall x: int
      ensures Harmless(p, [l], [], lk, lk, x)
    {
      HeldOne(l, l.owner, x);
    }
    Edit(p, [l], [], s, lk, lk, was, req);
  }

  /** A lock replaced by what is left of it outside the request. */
  lemma Cut(p: seq<Lock>, l: Lock, m': seq<Lock>, s: seq<Lock>, lk: Lock, was: seq<Lock>, req: Lock)
    requires Pass(p, [l] + s, lk, was, req) && l.owner == lk.owner && l.typ != lk.typ
    requires WellFormed(m') && forall a | a in m' :: a.owner == l.owner && a.typ == l.typ && l.start <= a.start && a.end <= l.end
    requires forall x: int | !Covers(lk, lk.owner, x) :: Held(m', lk.owner, x) == Held([l], lk.owner, x)
    ensures WellFormed(p + m' + s) && SameMeaning(p + m' + s, lk, was, req)
  {
    hide SameMeaning;
    assert p + ([l] + s) == p + [l] + s;
    WellFormedParts(p, [l], s);
    assert [l][0] == l && l in [l] + s && l in [l];
    forall a, b | a in p && b in m' + s
      ensures Precedes(a, b)
    {
      if b in m' { assert Precedes(a, l); } else { assert b in [l] + s; }
    }
    assert forall a, b | a in m' && b in s :: Precedes(l, b) && Precedes(a, b);
    WellFormedJoin(p, m', s);
    forall x: int
      ensures Harmless(p, [l], m', lk, lk, x)
    {
    }
    Edit(p, [l], m', s, lk, lk, was, req);
  }

  /** The end of a lock of another type is cut off by the request. */
  lemma TrimEnd(p: seq<Lock>, l: Lock, s: seq<Lock>, lk: Lock, was: seq<Lock>, req: Lock)
    requires Pass(p, [l] + s, lk, was, req) && l.owner == lk.owner && l.typ != lk.typ
    requires l.start < lk.start <= l.end <= lk.end
    ensures Pass(p + [l.(end := lk.start - 1)], s, lk, was, req)
  {
    hide SameMeaning;
    var l' := l.(end := lk.start - 1);
    CursorLock(p, l, s);
    forall x: int | !Covers(lk, lk.owner, x)
      ensures Held([l'], lk.owner, x) == Held([l], lk.owner, x)
    {
      HeldOne(l, lk.owner, x);
      HeldOne(l', lk.owner, x);
    }
    Cut(p, l, [l'], s, lk, was, req);
  }

  lemma CursorLock(p: seq<Lock>, l: Lock, s: seq<Lock>)
    requires WellFormed(p + ([l] + s))
    ensures ValidRange(l) && l.typ != Unlock
  {
    assert (p + ([l] + s))[|p|] == l;
  }

  /** The pass is over: everything left of the request's owner lies behind the request. */
  ghost predicate Stopped(p: seq<Lock>, s: seq<Lock>, lk: Lock, was: seq<Lock>, req: Lock) {
    Pass(p, s, lk, was, req) && AllAfter(s, lk)
  }

  /** The lock under the cursor already lies behind the request, so all that follow do. */
  lemma Stop(p: seq<Lock>, l: Lock, s: seq<Lock>, lk: Lock, was: seq<Lock>, req: Lock)
    requires Pass(p, [l] + s, lk, was, req) && l.owner == lk.owner && Precedes(lk, l)
    ensures Stopped(p, [l] + s, lk, was, req)
  {
    hide SameMeaning;
    CursorLock(p, l, s);
    assert p + ([l] + s) == p + [l] + s;
    WellFormedParts(p, [l], s);
    var t := [l] + s;
    forall i | 0 <= i < |t|
      ensures Precedes(lk, t[i])
    {
      if i > 0 { assert t[i] == s[i - 1] && t[i] in s && [l][0] in [l] && Precedes(l, t[i]); }
    }
  }

  /** The start of a lock of another type is cut off by the request, which ends the pass. */
  lemma TrimStart(p: seq<Lock>, l: Lock, s: seq<Lock>, lk: Lock, was: seq<Lock>, req: Lock)
    requires Pass(p, [l] + s, lk, was, req) && l.owner == lk.owner && l.typ != lk.typ
    requires lk.start <= l.start <= lk.end < l.end
    ensures Stopped(p, [l.(start := lk.end + 1)] + s, lk, was, req)
  {
    hide SameMeaning;
    var l' := l.(start := lk.end + 1);
    CursorLock(p, l, s);
    forall x: int | !Covers(lk, lk.owner, x)
      ensures Held([l'], lk.owner, x) == Held([l], lk.owner, x)
    {
      HeldOne(l, lk.owner, x);
      HeldOne(l', lk.owner, x);
    }
    Cut(p, l, [l'], s, lk, was, req);
    assert p + ([l'] + s) == p + [l'] + s;
    Stop(p, l', s, lk, was, req);
  }

  /** A lock of another type around the request is split in two. */
  lemma Split(p: seq<Lock>, l: Lock, s: seq<Lock>, lk: Lock, was: seq<Lock>, req: Lock)
    requires Pass(p, [l] + s, lk, was, req) && l.owner == lk.owner && l.typ != lk.typ
    requires l.start < lk.start && lk.end < l.end
    ensures Pass(p + [l.(end := lk.start - 1)], [l.(start := lk.end + 1)] + s, lk, was, req)
  {
    hide SameMeaning;
    var a, b := l.(end := lk.start - 1), l.(start := lk.end + 1);
    CursorLock(p, l, s);
    forall x: int | !Covers(lk, lk.owner, x)
      ensures Held([a, b], lk.owner, x) == Held([l], lk.owner, x)
    {
      assert [a, b] == [a] + [b];
      HeldConcat([a], [b], lk.owner, x);
      HeldOne(l, lk.owner, x);
      HeldOne(a, lk.owner, x);
      HeldOne(b, lk.owner, x);
    }
    Cut(p, l, [a, b], s, lk, was, req);
    assert p + [a, b] + s == (p + [a]) + ([b] + s);
  }

  lemma CursorRange(p: seq<Lock>, l: Lock, s: seq<Lock>, lk: Lock, was: seq<Lock>, req: Lock)
    requires Pass(p, [l] + s, lk, was, req)
    ensures ValidRange(l) && l.typ != Unlock && ValidRange(lk)
    ensures lk.typ == req.typ && (lk.typ == Unlock ==> lk == req)
  {
    hide SameMeaning, AllBefore;
    CursorLock(p, l, s);
  }

  // ----- the result

  ghost predicate Result(locks: seq<Lock>, was: seq<Lock>, req: Lock) {
    && WellFormed(locks)
    && forall o: int, x: int :: Held(locks, o, x) == Overlay(was, req, o, x)
  }

  /** `a` is a piece of `b`: the same lock, process id included, over some of its offsets. */
  ghost predicate Piece(a: Lock, b: Lock) {
    a == b.(start := a.start, end := a.end) && b.start <= a.start && a.end <= b.end
  }

  ghost predicate PieceOf(a: Lock, was: seq<Lock>) {
    exists j | 0 <= j < |was| :: Piece(a, was[j])
  }

  /** All are pieces of locks that were there. */
  ghost predicate Traced(locks: seq<Lock>, was: seq<Lock>) {
    forall a | a in locks :: PieceOf(a, was)
  }

  /** The request, grown by the locks it has absorbed. */
  ghost predicate Grown(a: Lock, req: Lock) {
    a == req.(start := a.start, end := a.end) && a.start <= req.start && req.end <= a.end
  }

  /** Where each lock comes from: a piece of an old one, or the request, with its process id. */
  ghost predicate Origins(locks: seq<Lock>, was: seq<Lock>, req: Lock) {
    forall a | a in locks :: PieceOf(a, was) || (req.typ != Unlock && Grown(a, req))
  }

  lemma TracedSelf(was: seq<Lock>)
    ensures Traced(was, was)
  {
    forall a | a in was
      ensures PieceOf(a, was)
    {
      var j :| 0 <= j < |was| && was[j] == a;
      assert Piece(a, was[j]);
    }
  }

  lemma TracedPiece(a: Lock, b: Lock, was: seq<Lock>)
    requires PieceOf(b, was) && Piece(a, b)
    ensures PieceOf(a, was)
  {
    var j :| 0 <= j < |was| && Piece(b, was[j]);
    assert Piece(a, was[j]);
  }

  /** The lock at `k` replaced by pieces of it. */
  lemma TracedCut(locks: seq<Lock>, k: nat, m: seq<Lock>, was: seq<Lock>)
    requires Traced(locks, was) && k < |locks| && forall a | a in m :: Piece(a, locks[k])
    ensures Traced(locks[..k] + m + locks[k + 1..], was)
  {
    hide PieceOf, Piece;
    forall a | a in locks[..k] + m + locks[k + 1..]
      ensures PieceOf(a, was)
    {
      if a in m { TracedPiece(a, locks[k], was); }
    }
  }

  lemma TracedOrigins(locks: seq<Lock>, was: seq<Lock>, req: Lock)
    requires Traced(locks, was)
    ensures Origins(locks, was, req)
  {
    hide PieceOf;
  }

  lemma GrownSelf(req: Lock)
    ensures Grown(req, req)
  {
  }

  lemma OriginsPut(locks: seq<Lock>, k: nat, lk: Lock, was: seq<Lock>, req: Lock)
    requires Traced(locks, was) && k <= |locks| && req.typ != Unlock && Grown(lk, req)
    ensures Origins(locks[..k] + [lk] + locks[k..], was, req)
  {
    hide PieceOf;
  }

  /** The request is put in at the cursor. */
  lemma PutIn(p: seq<Lock>, s: seq<Lock>, lk: Lock, was: seq<Lock>, req: Lock)
    requires Stopped(p, s, lk, was, req) && lk.typ != Unlock
    ensures Result(p + [lk] + s, was, req)
  {
    assert p + s == p + [] + s;
    WellFormedParts(p, [], s);
    WellFormedJoin(p, [lk], s) by {
      forall a, b | a in p && b in [lk] + s
        ensures Precedes(a, b)
      {
        assert b in s ==> b in [] + s;
      }
    }
    forall o: int, x: int
      ensures Held(p + [lk] + s, o, x) == Overlay(was, req, o, x)
    {
      assert Overlay(p + s, lk, o, x) == Overlay(was, req, o, x);
      HeldAround(p, [lk], s, o, x);
      HeldConcat(p, s, o, x);
      HeldOne(lk, o, x);
      if Covers(lk, o, x) {
        forall i | 0 <= i < |p|
          ensures !Covers(p[i], o, x)
        {
          assert Precedes(p[i], lk);
        }
        HeldNone(p, o, x);
      }
    }
  }

  /** For an unlock nothing is put in: what the request covers is already free. */
  lemma NothingToInsert(p: seq<Lock>, s: seq<Lock>, lk: Lock, was: seq<Lock>, req: Lock)
    requires Stopped(p, s, lk, was, req) && lk.typ == Unlock
    ensures Result(p + s, was, req)
  {
    forall o: int, x: int
      ensures Held(p + s, o, x) == Overlay(was, req, o, x)
    {
      assert Overlay(p + s, lk, o, x) == Overlay(was, req, o, x);
      if Covers(lk, o, x) {
        var t := p + s;
        forall i | 0 <= i < |t|
          ensures !Covers(t[i], o, x)
        {
          if i < |p| {
            assert t[i] == p[i] && Precedes(p[i], lk);
          } else {
            assert t[i] == s[i - |p|] && Precedes(lk, s[i - |p|]);
          }
        }
        HeldNone(t, o, x);
      }
    }
  }

  /** A lock of the same type around the request already says all: the list stands as it is. */
  lemma Contained(p: seq<Lock>, l: Lock, s: seq<Lock>, lk: Lock, was: seq<Lock>, req: Lock)
    requires Pass(p, [l] + s, lk, was, req) && l.owner == lk.owner && l.typ == lk.typ
    requires l.start <= lk.start && lk.end <= l.end
    ensures Result(p + ([l] + s), was, req)
  {
    CursorLock(p, l, s);
    var t := p + [l] + s;
    assert p + ([l] + s) == t;
    WellFormedParts(p, [l], s);
    assert [l][0] == l && l in [l] + s;
    forall o: int, x: int
      ensures Held(t, o, x) == Overlay(was, req, o, x)
    {
      assert Overlay(t, lk, o, x) == Overlay(was, req, o, x);
      if Covers(lk, o, x) {
        HeldAround(p, [l], s, o, x);
        HeldOne(l, o, x);
        NotBelow(p, l, x);
      }
    }
  }

  lemma Begin(locks: seq<Lock>, req: Lock)
    requires WellFormed(locks) && ValidRange(req)
    ensures Pass([], locks, req, locks, req)
  {
    assert [] + locks == locks;
  }

  lemma ResultWellFormed(locks: seq<Lock>, was: seq<Lock>, req: Lock)
    requires Result(locks, was, req)
    ensures WellFormed(locks)
  {
  }

  lemma EndOfList(p: seq<Lock>, s: seq<Lock>, lk: Lock, was: seq<Lock>, req: Lock)
    requires Pass(p, s, lk, was, req) && s == []
    ensures Stopped(p, s, lk, was, req)
  {
  }

  lemma StoppedFacts(p: seq<Lock>, s: seq<Lock>, lk: Lock, was: seq<Lock>, req: Lock)
    requires Stopped(p, s, lk, was, req)
    ensures lk.typ == req.typ
  {
  }

  // ----- conflicts between owners

  predicate Conflicts(l: Lock, req: Lock) {
    && l.owner != req.owner
    && req.start <= l.end && l.start <= req.end
    && (l.typ == WriteLock || req.typ == WriteLock)
  }

  /** No offset is held by two owners unless both only read. */
  ghost predicate Compatible(locks: seq<Lock>) {
    forall o: int, o': int, x: int | o != o' && Held(locks, o, x).Some? && Held(locks, o', x).Some? ::
      Held(locks, o, x) == Some(ReadLock) == Held(locks, o', x)
  }

  lemma {:induction false} HeldWitness(locks: seq<Lock>, o: int, x: int)
    requires Held(locks, o, x).Some?
    ensures exists i | 0 <= i < |locks| :: Covers(locks[i], o, x) && Held(locks, o, x) == Some(locks[i].typ)
  {
    if Covers(locks[0], o, x) {
    } else {
      HeldWitness(locks[1..], o, x);
      var j :| 0 <= j < |locks[1..]| && Covers(locks[1..][j], o, x) && Held(locks[1..], o, x) == Some(locks[1..][j].typ);
      assert locks[1..][j] == locks[j + 1];
    }
  }

  /** Another owner holds an offset of the range, and one of the two wants to write. */
  ghost predicate Rival(locks: seq<Lock>, req: Lock, o: int, x: int) {
    && o != req.owner && req.start <= x <= req.end && Held(locks, o, x).Some?
    && (Held(locks, o, x) == Some(WriteLock) || req.typ == WriteLock)
  }

  /** What is held says nothing against the request. */
  ghost predicate Unopposed(locks: seq<Lock>, req: Lock) {
    forall o: int, x: int :: !Rival(locks, req, o, x)
  }

  /** In an orderly list the lock that covers an offset is what is held there. */
  lemma {:induction false} HeldIs(locks: seq<Lock>, i: nat, x: int)
    requires WellFormed(locks) && i < |locks| && Covers(locks[i], locks[i].owner, x)
    ensures Held(locks, locks[i].owner, x) == Some(locks[i].typ)
    decreases |locks|
  {
    if i > 0 {
      assert Precedes(locks[0], locks[i]);
      var t := locks[1..];
      assert forall j | 0 <= j < |t| :: t[j] == locks[j + 1];
      HeldIs(t, i - 1, x);
    }
  }

  /** The test on the locks of a list finds a conflict exactly if another owner stands against the request. */
  lemma ConflictIs(locks: seq<Lock>, req: Lock)
    requires WellFormed(locks) && ValidRange(req)
    ensures (forall i | 0 <= i < |locks| :: !Conflicts(locks[i], req)) <==> Unopposed(locks, req)
  {
    if forall i | 0 <= i < |locks| :: !Conflicts(locks[i], req) {
      forall o: int, x: int
        ensures !Rival(locks, req, o, x)
      {
        if Held(locks, o, x).Some? { HeldWitness(locks, o, x); }
      }
    }
    if Unopposed(locks, req) {
      forall i | 0 <= i < |locks|
        ensures !Conflicts(locks[i], req)
      {
        var l := locks[i];
        var x := if l.start < req.start then req.start else l.start;
        assert !Rival(locks, req, l.owner, x);
        if l.start <= x <= l.end { HeldIs(locks, i, x); }
      }
    }
  }

  /** Granting a request that conflicts with nothing, or releasing, keeps owners compatible. */
  lemma CompatibleKept(now: seq<Lock>, was: seq<Lock>, req: Lock)
    requires WellFormed(was) && Compatible(was) && Result(now, was, req)
    requires req.typ == Unlock || forall i | 0 <= i < |was| :: !Conflicts(was[i], req)
    ensures Compatible(now)
  {
    forall o: int, o': int, x: int | o != o' && Held(now, o, x).Some? && Held(now, o', x).Some?
      ensures Held(now, o, x) == Some(ReadLock) == Held(now, o', x)
    {
      assert Held(now, o, x) == Overlay(was, req, o, x) && Held(now, o', x) == Overlay(was, req, o', x);
      if Covers(req, o, x) {
        HeldWitness(was, o', x);
      } else if Covers(req, o', x) {
        HeldWitness(was, o, x);
      }
    }
  }

  // ----- runs

  /** After a run of requests an offset is held as the last request covering it says. */
  function HeldAfter(was: seq<Lock>, reqs: seq<Lock>, o: int, x: int): Option<LockType> {
    if reqs == [] then Held(was, o, x)
    else if Covers(reqs[|reqs| - 1], o, x) then Granted(reqs[|reqs| - 1])
    else HeldAfter(was, reqs[..|reqs| - 1], o, x)
  }

  lemma RunStep(now: seq<Lock>, mid: seq<Lock>, was: seq<Lock>, reqs: seq<Lock>, n: nat)
    requires n < |reqs| && Result(now, mid, reqs[n])
    requires forall o: int, x: int :: Held(mid, o, x) == HeldAfter(was, reqs[..n], o, x)
    ensures forall o: int, x: int :: Held(now, o, x) == HeldAfter(was, reqs[..n + 1], o, x)
  {
    forall o: int, x: int
      ensures Held(now, o, x) == HeldAfter(was, reqs[..n + 1], o, x)
    {
      hide Held;
      assert Held(now, o, x) == Overlay(mid, reqs[n], o, x);
      assert reqs[..n + 1][..n] == reqs[..n];
    }
  }

  datatype Next = Continue | Break | Out

  /** The locks of one file. */
  class FileLocks {
    var locks: seq<Lock>

    constructor ()
      ensures locks == [] && WellFormed(locks)
    {
      locks := [];
    }

    /** locks_conflict: the first lock that stands in the way of `req`. */
    method Conflict(req: Lock) returns (r: Option<Lock>)
      ensures r.None? <==> forall i | 0 <= i < |locks| :: !Conflicts(locks[i], req)
      ensures WellFormed(locks) && ValidRange(req) ==> (r.None? <==> Unopposed(locks, req))
      ensures r.Some? ==> exists i | 0 <= i < |locks| ::
                r.value == locks[i] && Conflicts(locks[i], req) && forall j | 0 <= j < i :: !Conflicts(locks[j], req)
    {
      hide WellFormed, Unopposed;
      if WellFormed(locks) && ValidRange(req) { ConflictIs(locks, req); }
      var k := 0;
      while k < |locks|
        invariant k <= |locks| && forall i | 0 <= i < k :: !Conflicts(locks[i], req)
      {
        if Conflicts(locks[k], req) {
          return Some(locks[k]);
        }
        k := k + 1;
      }
      return None;
    }

    /** What the pass has established with the cursor at `k`. */
    ghost predicate Reached(go: Next, k: nat, lk: Lock, was: seq<Lock>, req: Lock)
      reads this
    {
      && k <= |locks|
      && match go
         case Continue => Pass(locks[..k], locks[k..], lk, was, req)
         case Break => Stopped(locks[..k], locks[k..], lk, was, req)
         case Out => Result(locks, was, req)
    }

    /** The lock under the cursor stays; the cursor moves on. */
    method StepOver(k: nat, lk: Lock, ghost was: seq<Lock>, ghost req: Lock)
      requires k < |locks| && Reached(Continue, k, lk, was, req) && Precedes(locks[k], lk)
      ensures Reached(Continue, k + 1, lk, was, req)
    {
      hide Pass;
      ghost var p, l, s := locks[..k], locks[k], locks[k + 1..];
      assert locks[k..] == [l] + s && locks[..k + 1] == p + [l];
      Skip(p, l, s, lk, was, req);
    }

    /** The lock under the cursor has the type of the request. */
    method EditSame(k: nat, lk0: Lock, ghost was: seq<Lock>, ghost req: Lock) returns (go: Next, k': nat, lk: Lock)
      requires k < |locks| && Reached(Continue, k, lk0, was, req) && Traced(locks, was) && Grown(lk0, req)
      requires locks[k].owner == lk0.owner && locks[k].typ == lk0.typ
      modifies this
      ensures Reached(go, k', lk, was, req) && lk.typ == lk0.typ && lk.owner == lk0.owner
      ensures Traced(locks, was) && Grown(lk, req)
      ensures |locks| - k' < old(|locks|) - k || go != Continue
    {
      hide Pass, Stopped, Result, WellFormed, Traced;
      var l := locks[k];
      ghost var p, s := locks[..k], locks[k + 1..];
      assert locks[k..] == [l] + s && locks == p + ([l] + s);
      CursorRange(p, l, s, lk0, was, req);
      go, k', lk := Continue, k, lk0;
      if l.end < lk.start - 1 {
        StepOver(k, lk, was, req);
        k' := k + 1;
      } else if lk.end < l.start - 1 {
        Stop(p, l, s, lk, was, req);
        go := Break;
      } else if l.start <= lk.start && lk.end <= l.end {
        Contained(p, l, s, lk, was, req);
        go := Out;
      } else {
        if l.start < lk.start {
          lk := lk.(start := l.start);
        }
        if lk.end < l.end {
          lk := lk.(end := l.end);
        }
        Merge(p, l, s, lk0, lk, was, req);
        DeleteAt(k, was);
      }
    }

    method DeleteAt(k: nat, ghost was: seq<Lock>)
      requires k < |locks| && Traced(locks, was)
      modifies this
      ensures Traced(locks, was)
      ensures |locks| == old(|locks|) - 1 && locks[..k] == old(locks[..k]) && locks[k..] == old(locks[k + 1..])
    {
      TracedCut(locks, k, [], was);
      assert locks[..k] + [] == locks[..k];
      locks := locks[..k] + locks[k + 1..];
    }

    /** The lock under the cursor has another type than the request, and lies in its way. */
    method EditOther(k: nat, lk: Lock, newl2: bool, ghost was: seq<Lock>, ghost req: Lock)
      returns (go: Next, k': nat, newl2': bool)
      requires k < |locks| && Reached(Continue, k, lk, was, req)
      requires locks[k].owner == lk.owner && locks[k].typ != lk.typ
      requires lk.start <= locks[k].end && locks[k].start <= lk.end
      requires newl2 || (req.typ == Unlock && req.start == 0)
      requires Traced(locks, was)
      modifies this
      ensures Reached(go, k', lk, was, req) && Traced(locks, was)
      ensures |locks| - k' < old(|locks|) - k || go == Break || (newl2 && !newl2' && |locks| - k' == old(|locks|) - k)
      ensures newl2' != newl2 ==> newl2 && SplitAt(k', lk)
    {
      hide Pass, Stopped, Result, WellFormed, Traced;
      var l := locks[k];
      ghost var p, s := locks[..k], locks[k + 1..];
      assert locks[k..] == [l] + s;
      CursorRange(p, l, s, lk, was, req);
      go, k', newl2' := Continue, k, newl2;
      if lk.start <= l.start && l.end <= lk.end {
        Delete(p, l, s, lk, was, req);
        DeleteAt(k, was);
      } else if l.end <= lk.end {
        var l' := l.(end := lk.start - 1);
        TrimEnd(p, l, s, lk, was, req);
        TracedCut(locks, k, [l'], was);
        locks := locks[k := l'];
        assert locks == p + [l'] + s;
        assert locks[..k + 1] == p + [l'] && locks[k + 1..] == s;
        k' := k + 1;
      } else if lk.start <= l.start {
        var l' := l.(start := lk.end + 1);
        TrimStart(p, l, s, lk, was, req);
        TracedCut(locks, k, [l'], was);
        locks := locks[k := l'];
        assert locks == p + [l'] + s;
        assert locks[..k] == p && locks[k..] == [l'] + s;
        go := Break;
      } else {
        assert newl2;
        var a, b := l.(end := lk.start - 1), l.(start := lk.end + 1);
        Split(p, l, s, lk, was, req);
        TracedCut(locks, k, [a, b], was);
        locks := locks[..k] + [a, b] + locks[k + 1..];
        assert locks[..k + 1] == p + [a] && locks[k + 1..] == [b] + s && locks[k + 1] == b;
        k', newl2' := k + 1, false;
      }
    }

    /** The lock under the cursor lies behind the request. */
    lemma StopHere(k: nat, lk: Lock, was: seq<Lock>, req: Lock)
      requires k < |locks| && Reached(Continue, k, lk, was, req)
      requires locks[k].owner == lk.owner && Precedes(lk, locks[k])
      ensures Reached(Break, k, lk, was, req)
    {
      hide Pass, Stopped;
      var p, l, s := locks[..k], locks[k], locks[k + 1..];
      assert locks[k..] == [l] + s;
      Stop(p, l, s, lk, was, req);
    }

    /** The pass is over: put the request in at the cursor, unless it only releases. */
    method PutRequest(k: nat, lk: Lock, go: Next, newl1: bool, ghost was: seq<Lock>, req: Lock)
      requires Reached(go, k, lk, was, req) && (go == Break || (go == Continue && k == |locks|))
      requires req.typ != Unlock ==> newl1
      requires Traced(locks, was) && Grown(lk, req)
      modifies this
      ensures Result(locks, was, req) && Origins(locks, was, req)
    {
      hide Pass, Stopped, Result, WellFormed, Traced, Origins, Grown;
      ghost var p, s := locks[..k], locks[k..];
      if go == Continue {
        EndOfList(p, s, lk, was, req);
      }
      StoppedFacts(p, s, lk, was, req);
      assert locks == p + s;
      if req.typ != Unlock {
        assert newl1;
        PutIn(p, s, lk, was, req);
        OriginsPut(locks, k, lk, was, req);
        locks := locks[..k] + [lk] + locks[k..];
      } else {
        NothingToInsert(p, s, lk, was, req);
        TracedOrigins(locks, was, req);
      }
    }

    /** The cursor is on the second half of a split lock, which will end the pass. */
    predicate SplitAt(k: nat, lk: Lock)
      reads this
    {
      k < |locks| && locks[k].owner == lk.owner && locks[k].typ != lk.typ && lk.end < locks[k].start
    }

    /**
     locks_insert.  `k` stands for the cursor; `newl1` and `newl2` say whether the two nodes
     allocated in advance are still there: the pass never needs a third, and releasing the
     whole file needs none.
     */
    method Insert(req: Lock)
      requires WellFormed(locks) && ValidRange(req)
      modifies this
      ensures Result(locks, old(locks), req) && Origins(locks, old(locks), req)
    {
      ghost var was := locks;
      var newl1 := req.typ != Unlock || req.start != 0 || req.end != OFFSET_MAX;
      var newl2 := newl1;
      var lk, k, go := req, 0, Continue;
      assert locks[..0] == [] && locks[0..] == locks && [] + locks == locks;
      hide Pass, Stopped, Result, WellFormed, Traced, Grown, Origins;
      Begin(locks, req);
      TracedSelf(locks);
      assert Grown(lk, req) by { GrownSelf(req); }
      while go == Continue && k < |locks|
        invariant 0 <= k && Reached(go, k, lk, was, req)
        invariant go == Continue ==> lk.typ == req.typ && lk.owner == req.owner
        invariant Traced(locks, was) && Grown(lk, req)
        invariant newl2 || !newl1 || go != Continue || SplitAt(k, lk)
        invariant newl1 == (req.typ != Unlock || req.start != 0 || req.end != OFFSET_MAX)
        decreases go == Continue, |locks| - k, newl2
      {
        var l := locks[k];
        assert locks[k..] == [l] + locks[k + 1..];
        CursorRange(locks[..k], l, locks[k + 1..], lk, was, req);
        if l.owner != lk.owner {
          StepOver(k, lk, was, req);
          k := k + 1;
        } else if lk.typ == l.typ {
          go, k, lk := EditSame(k, lk, was, req);
        } else if l.end < lk.start {
          StepOver(k, lk, was, req);
          k := k + 1;
        } else if lk.end < l.start {
          go := Break;
          StopHere(k, lk, was, req);
        } else {
          go, k, newl2 := EditOther(k, lk, newl2, was, req);
        }
      }
      if go != Out {
        PutRequest(k, lk, go, newl1, was, req);
      } else {
        TracedOrigins(locks, was, req);
      }
    }

    /** A run of lock calls: the last request that covers an offset decides. */
    method InsertAll(reqs: seq<Lock>)
      requires WellFormed(locks) && forall i | 0 <= i < |reqs| :: ValidRange(reqs[i])
      modifies this
      ensures WellFormed(locks)
      ensures forall o: int, x: int :: Held(locks, o, x) == HeldAfter(old(locks), reqs, o, x)
    {
      var n := 0;
      while n < |reqs|
        invariant n <= |reqs| && WellFormed(locks)
        invariant forall o: int, x: int :: Held(locks, o, x) == HeldAfter(old(locks), reqs[..n], o, x)
      {
        ghost var mid := locks;
        Insert(reqs[n]);
        RunStep(locks, mid, old(locks), reqs, n);
        n := n + 1;
      }
      assert reqs[..n] == reqs;
    }

    /**
     A call that first looks for conflicts, and is refused if there is one, keeps owners
     compatible.  A release conflicts with nothing.
     */
    method TryLock(req: Lock) returns (r: Option<Lock>)
      requires WellFormed(locks) && ValidRange(req) && Compatible(locks)
      modifies this
      ensures Compatible(locks) && WellFormed(locks)
      ensures r.None? <==> req.typ == Unlock || Unopposed(old(locks), req)
      ensures if r.None? then Result(locks, old(locks), req) else locks == old(locks)
    {
      hide WellFormed, Compatible, Result;
      r := None;
      if req.typ != Unlock {
        r := Conflict(req);
      }
      if r.None? {
        Insert(req);
        CompatibleKept(locks, old(locks), req);
        ResultWellFormed(locks, old(locks), req);
      }
    }
  }

  // ----- the form in which a lock comes from and goes to the caller

  /** A range as fcntl has it: a length of zero reaches to the end of all offsets. */
  datatype Flock = Flock(typ: LockType, start: int, len: int, pid: int)

  function FlockToLock(f: Flock): Lock {
    Lock(f.typ, f.start, if f.len != 0 then f.start + f.len - 1 else OFFSET_MAX, f.pid, 0)
  }

  function LockToFlock(l: Lock): Flock {
    Flock(l.typ, l.start, if l.end == OFFSET_MAX then 0 else l.end - l.start + 1, l.pid)
  }

  /** The offsets of a range: its length of them, or all from its start on. */
  lemma FlockCovers(f: Flock, o: int, x: int)
    requires x <= OFFSET_MAX
    ensures var l := FlockToLock(f).(owner := o);
            Covers(l, o, x) <==> f.start <= x && (f.len != 0 ==> x < f.start + f.len)
    ensures FlockToLock(f).typ == f.typ && FlockToLock(f).pid == f.pid
  {
  }

  /** A lock reported and set again is the same lock, and a range set and reported covers the same offsets. */
  lemma FlockRoundTrip(l: Lock, f: Flock)
    requires ValidRange(l) && ValidRange(FlockToLock(f))
    ensures FlockToLock(LockToFlock(l)) == l.(owner := 0)
    ensures LockToFlock(FlockToLock(f)) == f <==> f.len == 0 || f.start + f.len - 1 != OFFSET_MAX
    ensures FlockToLock(LockToFlock(FlockToLock(f))) == FlockToLock(f)
  {
  }
}
