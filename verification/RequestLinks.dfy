/**
 The intrusive doubly linked rings of requests: each request has a `next` and a `prev` field,
 and a ring starts at a list head that is never removed.  The fields of all requests that are
 allocated are kept in two maps, so that following the link of a freed request would be an
 unprovable map access.
 */
module RequestLinks {
  import opened Sequences

  type Links = map<int, int>

  function SuccAt(ring: seq<int>, k: nat): int
    requires k < |ring|
  {
    if k + 1 < |ring| then ring[k + 1] else ring[0]
  }

  /** `next` and `prev` link the elements of `ring`, in order and back to its first element. */
  ghost predicate Linked(next: Links, prev: Links, ring: seq<int>) {
    && ring != [] && Distinct(ring)
    && (forall r | r in ring :: r in next && r in prev)
    && (forall k | 0 <= k < |ring| :: next[ring[k]] == SuccAt(ring, k) && prev[SuccAt(ring, k)] == ring[k])
  }

  /** list_init_req leaves a request linked to itself. */
  ghost predicate Alone(next: Links, prev: Links, r: int) {
    r in next && r in prev && next[r] == r && prev[r] == r
  }

  ghost predicate SameAt(next: Links, prev: Links, next': Links, prev': Links, x: int) {
    && (x in next' <==> x in next) && (x in next ==> next'[x] == next[x])
    && (x in prev' <==> x in prev) && (x in prev ==> prev'[x] == prev[x])
  }

  ghost predicate Apart(a: seq<int>, b: seq<int>) {
    forall x | x in a :: x !in b
  }

  /** list_add_req before the head: the request becomes the last of the ring. */
  function AddNext(next: Links, prev: Links, req: int, head: int): Links
    requires head in prev
  {
    next[req := head][prev[head] := req]
  }

  function AddPrev(next: Links, prev: Links, req: int, head: int): Links
    requires head in prev
  {
    prev[req := prev[head]][head := req]
  }

  /** list_del_req */
  function DelNext(next: Links, prev: Links, req: int): Links
    requires req in next && req in prev
  {
    next[prev[req] := next[req]]
  }

  function DelPrev(next: Links, prev: Links, req: int): Links
    requires req in next && req in prev
  {
    prev[next[req] := prev[req]]
  }

  // ----- one ring

  lemma RingEnds(next: Links, prev: Links, ring: seq<int>)
    requires Linked(next, prev, ring)
    ensures ring[0] in next && ring[0] in prev && prev[ring[0]] == ring[|ring| - 1]
    ensures next[ring[0]] == SuccAt(ring, 0)
  {
    assert SuccAt(ring, |ring| - 1) == ring[0];
  }

  lemma RingAt(next: Links, prev: Links, ring: seq<int>, k: nat)
    requires Linked(next, prev, ring) && 0 < k < |ring|
    ensures ring[k] in next && ring[k] in prev && next[ring[k]] == SuccAt(ring, k) && prev[ring[k]] == ring[k - 1]
  {
    assert SuccAt(ring, k - 1) == ring[k];
  }

  /** No request on a ring behind its head is linked to itself. */
  lemma NotAlone(next: Links, prev: Links, ring: seq<int>, r: int)
    requires Linked(next, prev, ring) && r in ring && r != ring[0]
    ensures !Alone(next, prev, r)
  {
    var k :| 0 <= k < |ring| && ring[k] == r;
    assert SuccAt(ring, k) != r;
  }

  lemma Opened(next: Links, prev: Links, ring: seq<int>, req: int)
    requires Linked(next, prev, ring) && req !in ring
    ensures ring[0] in prev
    ensures Linked(AddNext(next, prev, req, ring[0]), AddPrev(next, prev, req, ring[0]), ring + [req])
    ensures forall x | x !in ring && x != req ::
              SameAt(next, prev, AddNext(next, prev, req, ring[0]), AddPrev(next, prev, req, ring[0]), x)
  {
    RingEnds(next, prev, ring);
    var n, ring' := |ring|, ring + [req];
    var next', prev' := AddNext(next, prev, req, ring[0]), AddPrev(next, prev, req, ring[0]);
    forall k | 0 <= k < |ring'|
      ensures next'[ring'[k]] == SuccAt(ring', k) && prev'[SuccAt(ring', k)] == ring'[k]
    {
      if k < n - 1 {
        assert SuccAt(ring, k) == ring[k + 1] == SuccAt(ring', k);
        assert ring[k] in ring && ring[k + 1] in ring;
      }
    }
  }

  lemma Closed(next: Links, prev: Links, ring: seq<int>, k: nat)
    requires Linked(next, prev, ring) && 0 < k < |ring|
    ensures ring[k] in next && ring[k] in prev
    ensures Linked(DelNext(next, prev, ring[k]), DelPrev(next, prev, ring[k]), RemoveAt(ring, k))
    ensures forall x | x !in ring :: SameAt(next, prev, DelNext(next, prev, ring[k]), DelPrev(next, prev, ring[k]), x)
    ensures DelNext(next, prev, ring[k]).Keys == next.Keys && DelPrev(next, prev, ring[k]).Keys == prev.Keys
  {
    RingAt(next, prev, ring, k);
    var next', prev' := DelNext(next, prev, ring[k]), DelPrev(next, prev, ring[k]);
    assert SuccAt(ring, k) in ring && ring[k - 1] in ring;
    DistinctRemove(ring, k);
    forall j | 0 <= j < |ring| - 1
      ensures next'[RemoveAt(ring, k)[j]] == SuccAt(RemoveAt(ring, k), j) && prev'[SuccAt(RemoveAt(ring, k), j)] == RemoveAt(ring, k)[j]
    {
      ClosedAt(next, prev, ring, k, j);
    }
  }

  lemma ClosedAt(next: Links, prev: Links, ring: seq<int>, k: nat, j: nat)
    requires Linked(next, prev, ring) && 0 < k < |ring| && j < |ring| - 1
    requires ring[k] in next && ring[k] in prev && prev[ring[k]] == ring[k - 1] && next[ring[k]] == SuccAt(ring, k)
    ensures var ring' := RemoveAt(ring, k);
            var next', prev' := DelNext(next, prev, ring[k]), DelPrev(next, prev, ring[k]);
            && ring'[j] in next' && next'[ring'[j]] == SuccAt(ring', j)
            && SuccAt(ring', j) in prev' && prev'[SuccAt(ring', j)] == ring'[j]
  {
    var ring' := RemoveAt(ring, k);
    assert |ring'| == |ring| - 1 && forall i | 0 <= i < |ring'| :: ring'[i] == if i < k then ring[i] else ring[i + 1];
    if j < k - 1 {
      assert SuccAt(ring', j) == ring[j + 1] == SuccAt(ring, j);
      assert ring[j + 1] != SuccAt(ring, k) by { if k + 1 == |ring| { assert SuccAt(ring, k) == ring[0]; } }
    } else if j == k - 1 {
      assert SuccAt(ring', j) == SuccAt(ring, k);
    } else {
      assert SuccAt(ring', j) == SuccAt(ring, j + 1);
    }
  }

  /** A ring is not disturbed by changes to requests outside it. */
  lemma Undisturbed(next: Links, prev: Links, next': Links, prev': Links, ring: seq<int>)
    requires Linked(next, prev, ring) && forall r | r in ring :: SameAt(next, prev, next', prev', r)
    ensures Linked(next', prev', ring)
  {
    assert forall r | r in ring :: SameAt(next, prev, next', prev', r) && r in next' && r in prev';
    forall k | 0 <= k < |ring|
      ensures next'[ring[k]] == SuccAt(ring, k) && prev'[SuccAt(ring, k)] == ring[k]
    {
      assert SuccAt(ring, k) in ring && ring[k] in ring;
    }
  }

  // ----- two rings in the same fields

  ghost predicate TwoRings(next: Links, prev: Links, a: seq<int>, b: seq<int>) {
    Linked(next, prev, a) && Linked(next, prev, b) && Apart(a, b)
  }

  lemma Swapped(next: Links, prev: Links, a: seq<int>, b: seq<int>)
    requires TwoRings(next, prev, a, b)
    ensures TwoRings(next, prev, b, a)
  {
  }

  /** A request put at the end of one ring: the other ring and everyone on neither stay. */
  lemma AddRing(next: Links, prev: Links, a: seq<int>, b: seq<int>, req: int)
    requires TwoRings(next, prev, a, b) && req !in a && req !in b
    ensures a[0] in prev
    ensures var next', prev' := AddNext(next, prev, req, a[0]), AddPrev(next, prev, req, a[0]);
            && TwoRings(next', prev', a + [req], b)
            && forall x | x !in a && x != req :: SameAt(next, prev, next', prev', x)
  {
    hide Linked, SameAt, AddNext, AddPrev;
    RingDistinct(next, prev, a);
    Opened(next, prev, a, req);
    Undisturbed(next, prev, AddNext(next, prev, req, a[0]), AddPrev(next, prev, req, a[0]), b);
  }

  lemma DelRing(next: Links, prev: Links, a: seq<int>, b: seq<int>, k: nat)
    requires TwoRings(next, prev, a, b) && 0 < k < |a|
    ensures a[k] in next && a[k] in prev
    ensures var next', prev' := DelNext(next, prev, a[k]), DelPrev(next, prev, a[k]);
            && TwoRings(next', prev', RemoveAt(a, k), b)
            && (forall x | x !in a :: SameAt(next, prev, next', prev', x))
            && next'.Keys == next.Keys && prev'.Keys == prev.Keys
  {
    hide Linked, SameAt, DelNext, DelPrev, RemoveAt, Distinct;
    Closed(next, prev, a, k);
    assert Distinct(a) by { RingDistinct(next, prev, a); }
    DistinctRemove(a, k);
    Undisturbed(next, prev, DelNext(next, prev, a[k]), DelPrev(next, prev, a[k]), b);
  }

  lemma RingDistinct(next: Links, prev: Links, ring: seq<int>)
    requires Linked(next, prev, ring)
    ensures Distinct(ring) && ring != [] && forall r | r in ring :: r in next && r in prev
  {
  }

  lemma FrameRings(next: Links, prev: Links, next': Links, prev': Links, a: seq<int>, b: seq<int>)
    requires TwoRings(next, prev, a, b)
    requires forall x | x in a || x in b :: SameAt(next, prev, next', prev', x)
    ensures TwoRings(next', prev', a, b)
  {
    hide Linked, SameAt;
    Undisturbed(next, prev, next', prev', a);
    Undisturbed(next, prev, next', prev', b);
  }

  lemma AloneSame(next: Links, prev: Links, next': Links, prev': Links, r: int)
    requires Alone(next, prev, r) && SameAt(next, prev, next', prev', r)
    ensures Alone(next', prev', r)
  {
  }

  /** list_del_req of a request linked only to itself changes nothing. */
  lemma DelAlone(next: Links, prev: Links, r: int)
    requires Alone(next, prev, r)
    ensures DelNext(next, prev, r) == next && DelPrev(next, prev, r) == prev
  {
  }
}
