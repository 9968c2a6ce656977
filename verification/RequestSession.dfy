/**
 The session as the code keeps it: requests in memory, threads, and the in-flight list and the
 INTERRUPT queue as rings of pointers through the requests.  Every step of the protocol, done
 with list_init_req, list_add_req, list_del_req and the walks along the rings, is the step of
 the state machine of InterruptProtocol, in which the rings are sequences.
 */
module RequestSession {
  import opened Sequences
  import opened InterruptProtocol
  import opened InterruptProgress
  import opened RequestLinks

  /** The two list heads. */
  const LIST: int := -1
  const QUEUE: int := -2

  // ----- the rings stand for the sequences

  ghost function ListRing(s: State): seq<int> {
    [LIST] + s.list
  }

  ghost function QueueRing(s: State): seq<int> {
    [QUEUE] + s.interrupts
  }

  /** Exactly the requests that are allocated have links, and the two heads. */
  ghost predicate InMemory(next: Links, prev: Links, s: State) {
    next.Keys == prev.Keys == s.reqs.Keys + {LIST, QUEUE}
  }

  /** Whoever is still to be unlinked is in flight, or linked to itself. */
  ghost predicate Loose(next: Links, prev: Links, s: State) {
    forall t: Tid, r: ReqId | RepliesAt(s.pcs, t, r) && r !in s.list :: Alone(next, prev, r)
  }

  ghost predicate Rings(next: Links, prev: Links, s: State) {
    && InMemory(next, prev, s)
    && TwoRings(next, prev, ListRing(s), QueueRing(s))
    && Loose(next, prev, s)
  }

  /** The same lists. */
  ghost predicate SameLists(s: State, s': State) {
    s'.list == s.list && s'.interrupts == s.interrupts
  }

  /** Nobody has become the replier of a request, but perhaps of one that is linked to itself. */
  ghost predicate NoNewReplier(next: Links, prev: Links, s: State, s': State) {
    forall t: Tid, r: ReqId | RepliesAt(s'.pcs, t, r) && r !in s'.list :: RepliesAt(s.pcs, t, r) || Alone(next, prev, r)
  }

  lemma RingMembers(s: State, x: int)
    ensures x in ListRing(s) <==> x == LIST || x in s.list
    ensures x in QueueRing(s) <==> x == QUEUE || x in s.interrupts
  {
  }

  /** A request not in memory is on no ring. */
  lemma OffRings(next: Links, prev: Links, s: State, r: int)
    requires Rings(next, prev, s) && r !in next
    ensures r !in ListRing(s) && r !in QueueRing(s)
  {
    RingDistinct(next, prev, ListRing(s));
    RingDistinct(next, prev, QueueRing(s));
  }

  /** Requests are freed that are on no list and that nobody is to unlink. */
  lemma FreeRings(next: Links, prev: Links, s: State, s': State, gone: set<int>)
    requires Rings(next, prev, s) && SameLists(s, s') && NoNewReplier(next, prev, s, s')
    requires gone <= s.reqs.Keys && s'.reqs.Keys == s.reqs.Keys - gone
    requires forall x | x in gone :: x !in s.list && x !in s.interrupts
    requires forall x, t: Tid | x in gone :: !RepliesAt(s'.pcs, t, x)
    ensures Rings(next - gone, prev - gone, s')
  {
    hide Linked, RepliesAt, Alone;
    var next', prev' := next - gone, prev - gone;
    assert LIST !in gone && QUEUE !in gone;
    FrameRings(next, prev, next', prev', ListRing(s), QueueRing(s));
    forall t: Tid, r: ReqId | RepliesAt(s'.pcs, t, r) && r !in s'.list
      ensures Alone(next', prev', r)
    {
      assert Alone(next, prev, r);
      AloneSame(next, prev, next', prev', r);
    }
  }

  /** list_init_req of a new request. */
  lemma InitRings(next: Links, prev: Links, s: State, s': State, r: ReqId)
    requires Rings(next, prev, s) && SameLists(s, s') && r !in s.reqs && s'.reqs.Keys == s.reqs.Keys + {r}
    requires NoNewReplier(next[r := r], prev[r := r], s, s')
    ensures Rings(next[r := r], prev[r := r], s') && Alone(next[r := r], prev[r := r], r)
  {
    hide Linked, RepliesAt;
    var next', prev' := next[r := r], prev[r := r];
    OffRings(next, prev, s, r);
    FrameRings(next, prev, next', prev', ListRing(s), QueueRing(s));
  }

  /** list_init_req of a request that has been taken off its ring. */
  lemma ReinitRings(next: Links, prev: Links, s: State, r: ReqId)
    requires Rings(next, prev, s) && r in s.reqs && r !in s.list && r !in s.interrupts
    ensures Rings(next[r := r], prev[r := r], s) && Alone(next[r := r], prev[r := r], r)
  {
    hide Linked, RepliesAt;
    var next', prev' := next[r := r], prev[r := r];
    RingMembers(s, r);
    FrameRings(next, prev, next', prev', ListRing(s), QueueRing(s));
  }

  /** list_add_req to the in-flight list. */
  lemma AddListRings(next: Links, prev: Links, s: State, s': State, r: ReqId)
    requires Rings(next, prev, s) && r in s.reqs && r !in s.list && r !in s.interrupts
    requires s'.list == s.list + [r] && s'.interrupts == s.interrupts && s'.reqs.Keys == s.reqs.Keys
    requires NoNewReplier(next, prev, s, s')
    ensures LIST in prev && Rings(AddNext(next, prev, r, LIST), AddPrev(next, prev, r, LIST), s')
  {
    hide Linked, RepliesAt, Alone, AddNext, AddPrev, SameAt;
    RingMembers(s, r);
    AddRing(next, prev, ListRing(s), QueueRing(s), r);
    var next', prev' := AddNext(next, prev, r, LIST), AddPrev(next, prev, r, LIST);
    assert ListRing(s') == ListRing(s) + [r];
    AddKeys(next, prev, s, r, LIST);
    forall t: Tid, q: ReqId | RepliesAt(s'.pcs, t, q) && q !in s'.list
      ensures Alone(next', prev', q)
    {
      assert q != r && q !in s.list by { AppendMembers(s.list, r, q); }
      assert Alone(next, prev, q);
      RingMembers(s, q);
      AloneSame(next, prev, next', prev', q);
    }
  }

  lemma AppendMembers(list: seq<ReqId>, r: ReqId, q: ReqId)
    ensures q in list + [r] <==> q in list || q == r
  {
  }

  lemma AddKeys(next: Links, prev: Links, s: State, r: ReqId, head: int)
    requires Rings(next, prev, s) && r in s.reqs && (head == LIST || head == QUEUE)
    ensures head in prev && AddNext(next, prev, r, head).Keys == next.Keys && AddPrev(next, prev, r, head).Keys == prev.Keys
  {
    RingEnds(next, prev, ListRing(s));
    RingEnds(next, prev, QueueRing(s));
    assert head == ListRing(s)[0] || head == QueueRing(s)[0];
  }

  /** Who is linked to itself is not in the queue. */
  lemma NotQueued(next: Links, prev: Links, s: State, r: ReqId)
    requires Rings(next, prev, s) && Alone(next, prev, r)
    ensures r !in QueueRing(s)
  {
    hide Linked, Alone;
    if r in QueueRing(s) { NotAlone(next, prev, QueueRing(s), r); }
  }

  /** list_add_req to the queue. */
  lemma AddQueueRings(next: Links, prev: Links, s: State, s': State, i: ReqId)
    requires Rings(next, prev, s) && i in s.reqs && i !in s.list && i !in s.interrupts
    requires s'.interrupts == s.interrupts + [i] && s'.list == s.list && s'.reqs.Keys == s.reqs.Keys
    requires s'.pcs == s.pcs && forall t: Tid :: !RepliesAt(s.pcs, t, i)
    ensures QUEUE in prev && Rings(AddNext(next, prev, i, QUEUE), AddPrev(next, prev, i, QUEUE), s')
  {
    hide Linked, RepliesAt, Alone, AddNext, AddPrev, SameAt;
    RingMembers(s, i);
    Swapped(next, prev, ListRing(s), QueueRing(s));
    AddRing(next, prev, QueueRing(s), ListRing(s), i);
    var next', prev' := AddNext(next, prev, i, QUEUE), AddPrev(next, prev, i, QUEUE);
    assert QueueRing(s') == QueueRing(s) + [i];
    Swapped(next', prev', QueueRing(s'), ListRing(s'));
    AddKeys(next, prev, s, i, QUEUE);
    forall t: Tid, q: ReqId | RepliesAt(s'.pcs, t, q) && q !in s'.list
      ensures Alone(next', prev', q)
    {
      assert Alone(next, prev, q);
      NotQueued(next, prev, s, q);
      AloneSame(next, prev, next', prev', q);
    }
  }

  /** list_del_req of the `k`-th INTERRUPT of the queue. */
  lemma DelQueueRings(next: Links, prev: Links, s: State, s': State, k: nat)
    requires Rings(next, prev, s) && k < |s.interrupts|
    requires s'.interrupts == RemoveAt(s.interrupts, k) && s'.list == s.list && s'.reqs.Keys == s.reqs.Keys && s'.pcs == s.pcs
    ensures var i := s.interrupts[k];
            && i in next && i in prev && Rings(DelNext(next, prev, i), DelPrev(next, prev, i), s')
            && i !in s'.interrupts && i !in s.list && forall t: Tid :: !RepliesAt(s.pcs, t, i)
  {
    hide Linked, RepliesAt, Alone, DelNext, DelPrev, SameAt;
    var ring, i := QueueRing(s), s.interrupts[k];
    Swapped(next, prev, ListRing(s), ring);
    assert ring[k + 1] == i && i in ring;
    DelRing(next, prev, ring, ListRing(s), k + 1);
    var next', prev' := DelNext(next, prev, i), DelPrev(next, prev, i);
    assert RemoveAt(ring, k + 1) == QueueRing(s');
    Swapped(next', prev', QueueRing(s'), ListRing(s'));
    RingDistinct(next, prev, ring);
    DistinctRemove(ring, k + 1);
    RingMembers(s', i);
    RingMembers(s, i);
    forall t: Tid, q: ReqId | RepliesAt(s.pcs, t, q) && q !in s.list
      ensures Alone(next', prev', q) && q != i
    {
      assert Alone(next, prev, q);
      NotQueued(next, prev, s, q);
      AloneSame(next, prev, next', prev', q);
    }
  }

  /** list_del_req of a request in flight. */
  lemma DelListRings(next: Links, prev: Links, s: State, s': State, k: nat)
    requires Rings(next, prev, s) && k < |s.list|
    requires s'.list == RemoveAt(s.list, k) && s'.interrupts == s.interrupts && s'.reqs.Keys == s.reqs.Keys
    requires forall t: Tid, q: ReqId | RepliesAt(s'.pcs, t, q) :: q != s.list[k] && RepliesAt(s.pcs, t, q)
    ensures var r := s.list[k];
            r in next && r in prev && Rings(DelNext(next, prev, r), DelPrev(next, prev, r), s')
  {
    hide Linked, RepliesAt, Alone, DelNext, DelPrev, SameAt;
    var ring, r := ListRing(s), s.list[k];
    assert ring[k + 1] == r;
    DelRing(next, prev, ring, QueueRing(s), k + 1);
    var next', prev' := DelNext(next, prev, r), DelPrev(next, prev, r);
    assert RemoveAt(ring, k + 1) == ListRing(s');
    RingDistinct(next, prev, ring);
    ListDistinct(s);
    DistinctRemove(s.list, k);
    forall t: Tid, q: ReqId | RepliesAt(s'.pcs, t, q) && q !in s'.list
      ensures Alone(next', prev', q)
    {
      assert q !in s.list;
      assert Alone(next, prev, q);
      RingMembers(s, q);
      AloneSame(next, prev, next', prev', q);
    }
  }

  lemma ListDistinct(s: State)
    requires Distinct(ListRing(s))
    ensures Distinct(s.list)
  {
    var ring := ListRing(s);
    assert forall i | 0 <= i < |s.list| :: s.list[i] == ring[i + 1];
  }

  lemma QueueDistinct(s: State)
    requires Distinct(QueueRing(s))
    ensures Distinct(s.interrupts)
  {
    var ring := QueueRing(s);
    assert forall i | 0 <= i < |s.interrupts| :: s.interrupts[i] == ring[i + 1];
  }

  /** Removing the element at `k` is what the state machine calls Without. */
  lemma {:induction false} RemovedIsWithout(s: seq<ReqId>, k: nat)
    requires Distinct(s) && k < |s|
    ensures RemoveAt(s, k) == Without(s, s[k])
  {
    var t := s[1..];
    assert forall i | 0 <= i < |t| :: t[i] == s[i + 1];
    if k == 0 {
      WithoutAbsent(t, s[0]);
      assert s[..0] + s[1..] == t;
    } else {
      RemovedIsWithout(t, k - 1);
      assert s[..k] == [s[0]] + t[..k - 1];
      assert RemoveAt(s, k) == [s[0]] + RemoveAt(t, k - 1);
    }
  }

  lemma {:induction false} WithoutAbsent(s: seq<ReqId>, r: ReqId)
    requires r !in s
    ensures Without(s, r) == s
  {
    if s != [] { WithoutAbsent(s[1..], r); }
  }

  // ----- the steps

  /** Taking the INTERRUPT found off the queue and freeing it, then putting the new request in flight. */
  lemma MatchRings(next: Links, prev: Links, s: State, s': State, r: ReqId, i: ReqId, k: nat)
    requires Rings(next, prev, s) && k < |s.interrupts| && i == s.interrupts[k] && r in s.reqs && r !in s.list && r !in s.interrupts
    requires s'.list == s.list + [r] && s'.interrupts == RemoveAt(s.interrupts, k) && s'.reqs.Keys == s.reqs.Keys - {i}
    requires forall t: Tid, q: ReqId | RepliesAt(s'.pcs, t, q) && q != r :: RepliesAt(s.pcs, t, q)
    requires i in s.reqs
    ensures i in next && i in prev
    ensures var next1, prev1 := DelNext(next, prev, i) - {i}, DelPrev(next, prev, i) - {i};
            LIST in prev1 && Rings(AddNext(next1, prev1, r, LIST), AddPrev(next1, prev1, r, LIST), s')
  {
    hide Rings, RepliesAt, AddNext, AddPrev, DelNext, DelPrev;
    var s1 := s.(interrupts := RemoveAt(s.interrupts, k));
    DelQueueRings(next, prev, s, s1, k);
    var s2 := s1.(reqs := s1.reqs - {i});
    FreeRings(DelNext(next, prev, i), DelPrev(next, prev, i), s1, s2, {i});
    RemovedMembers(s.interrupts, k, r);
    AddListRings(DelNext(next, prev, i) - {i}, DelPrev(next, prev, i) - {i}, s2, s', r);
  }

  lemma RemovedMembers(s: seq<ReqId>, k: nat, r: ReqId)
    requires k < |s| && r !in s
    ensures r !in RemoveAt(s, k)
  {
  }

  /** Taking the first INTERRUPT off the queue to bounce it, then putting the new request in flight. */
  lemma BounceRings(next: Links, prev: Links, s: State, s': State, r: ReqId, i: ReqId)
    requires Rings(next, prev, s) && s.interrupts != [] && i == s.interrupts[0] && r in s.reqs && r !in s.list && r !in s.interrupts
    requires s'.list == s.list + [r] && s'.interrupts == s.interrupts[1..] && s'.reqs.Keys == s.reqs.Keys
    requires forall t: Tid, q: ReqId | RepliesAt(s'.pcs, t, q) && q != r && q != i :: RepliesAt(s.pcs, t, q)
    requires i in s.reqs
    ensures i in next && i in prev
    ensures var next1, prev1 := DelNext(next, prev, i)[i := i], DelPrev(next, prev, i)[i := i];
            LIST in prev1 && Rings(AddNext(next1, prev1, r, LIST), AddPrev(next1, prev1, r, LIST), s')
  {
    hide Rings, RepliesAt, AddNext, AddPrev, DelNext, DelPrev, Alone;
    var s1 := s.(interrupts := s.interrupts[1..]);
    assert s.interrupts[1..] == RemoveAt(s.interrupts, 0);
    DelQueueRings(next, prev, s, s1, 0);
    ReinitRings(DelNext(next, prev, i), DelPrev(next, prev, i), s1, i);
    RemovedMembers(s.interrupts, 0, r);
    AddListRings(DelNext(next, prev, i)[i := i], DelPrev(next, prev, i)[i := i], s1, s', r);
  }

  /** list_del_req in free_req: off the in-flight list, or of a request linked to itself. */
  lemma UnlinkRings(next: Links, prev: Links, s: State, t: Tid, r: ReqId, after: Option<ReqId>)
    requires Inv(s) && Rings(next, prev, s) && t in s.pcs && s.pcs[t] == Pc.Unlinking(r, after) && r in s.reqs
    ensures r in next && r in prev && Rings(DelNext(next, prev, r), DelPrev(next, prev, r), Unlinked(s, t, r, after))
  {
    hide Without, LiveInv, CountInv, LeakInv, LockInv, QueueInv, ToldInv, DelNext, DelPrev, Linked, Alone, TwoRings;
    var s' := Unlinked(s, t, r, after);
    UnlinkFacts(s, t, r, after);
    assert RepliesAt(s.pcs, t, r);
    forall u: Tid, q: ReqId | RepliesAt(s'.pcs, u, q)
      ensures q != r && RepliesAt(s.pcs, u, q)
    {
      assert u == t || (u in s.pcs && s'.pcs[u] == s.pcs[u]);
    }
    if r in s.list {
      var k :| 0 <= k < |s.list| && s.list[k] == r;
      RemovedIsWithout(s.list, k);
      DelListRings(next, prev, s, s', k);
    } else {
      WithoutAbsent(s.list, r);
      AloneIn(next, prev, s, r);
      DelAlone(next, prev, r);
      SameListRings(next, prev, s, s');
    }
  }

  lemma AloneIn(next: Links, prev: Links, s: State, r: ReqId)
    requires Rings(next, prev, s) && r in s.reqs
    ensures r in next && r in prev
  {
  }

  /** Nothing is linked, unlinked, allocated or freed. */
  lemma SameListRings(next: Links, prev: Links, s: State, s': State)
    requires Rings(next, prev, s) && SameLists(s, s') && s'.reqs.Keys == s.reqs.Keys
    requires forall t: Tid, r: ReqId | RepliesAt(s'.pcs, t, r) :: RepliesAt(s.pcs, t, r)
    ensures Rings(next, prev, s')
  {
    hide Linked, RepliesAt, Alone;
  }

  /** A step after which only fewer requests are in memory. */
  lemma LessRings(next: Links, prev: Links, s: State, s': State, gone: set<int>)
    requires Rings(next, prev, s) && SameLists(s, s') && LiveInv(s')
    requires gone <= s.reqs.Keys && s'.reqs.Keys == s.reqs.Keys - gone
    requires forall t: Tid, r: ReqId | RepliesAt(s'.pcs, t, r) :: RepliesAt(s.pcs, t, r)
    ensures Rings(next - gone, prev - gone, s')
  {
    hide Rings;
    FreeRings(next, prev, s, s', gone);
  }

  lemma InitialRings(next: Links, prev: Links)
    requires next == prev == map[LIST := LIST, QUEUE := QUEUE]
    ensures Rings(next, prev, Initial())
  {
    var s := Initial();
    assert ListRing(s) == [LIST] && QueueRing(s) == [QUEUE];
  }

  /** A request just allocated is on no list and has no replier. */
  lemma FreshOff(s: State, r: ReqId)
    requires Inv(s) && r !in s.reqs
    ensures r !in s.list && r !in s.interrupts && forall t: Tid :: !RepliesAt(s.pcs, t, r)
    ensures forall q | q in s.list || q in s.interrupts :: q in s.reqs
  {
    hide CountInv, LeakInv, ListInv, RoleInv, LockInv, QueueInv, ToldInv;
  }

  lemma {:induction false} FindTargetSame(reqs: map<ReqId, Request>, queue: seq<ReqId>, r: ReqId, q: Request, target: nat)
    requires r !in queue && forall x | x in queue :: x in reqs
    ensures FindTarget(reqs[r := q], queue, target) == FindTarget(reqs, queue, target)
  {
    if queue != [] {
      assert queue[0] in queue;
      FindTargetSame(reqs, queue[1..], r, q, target);
    }
  }

  lemma {:induction false} FindUniqueSame(reqs: map<ReqId, Request>, list: seq<ReqId>, r: ReqId, q: Request, unique: nat)
    requires r !in list && forall x | x in list :: x in reqs
    ensures FindUnique(reqs[r := q], list, unique) == FindUnique(reqs, list, unique)
  {
    if list != [] {
      assert list[0] in list;
      FindUniqueSame(reqs, list[1..], r, q, unique);
    }
  }

  lemma RingsFacts(next: Links, prev: Links, s: State)
    requires Rings(next, prev, s)
    ensures Linked(next, prev, [LIST] + s.list) && Linked(next, prev, [QUEUE] + s.interrupts)
    ensures QUEUE in next && next[QUEUE] == if s.interrupts == [] then QUEUE else s.interrupts[0]
    ensures LIST in prev && QUEUE in prev && Distinct(s.interrupts)
    ensures forall r: ReqId | r in s.reqs :: r in next && r in prev
  {
    RingEnds(next, prev, QueueRing(s));
    RingDistinct(next, prev, QueueRing(s));
    QueueDistinct(s);
  }

  // ----- what a dispatch or an interrupt does to the state, case by case

  ghost predicate IsMatched(s1: State, s': State, t: Tid, r: ReqId, i: ReqId, k: nat) {
    && k < |s1.interrupts| && i == s1.interrupts[k] && r in s1.reqs && i in s1.reqs && i != r && r !in s1.list && r !in s1.interrupts
    && s'.list == s1.list + [r] && s'.interrupts == RemoveAt(s1.interrupts, k)
    && s'.reqs == s1.reqs[r := s1.reqs[r].(interrupted := true)] - {i} && s'.pcs == s1.pcs[t := Running(r)]
    && forall u: Tid, q: ReqId | RepliesAt(s'.pcs, u, q) && q != r :: RepliesAt(s1.pcs, u, q)
  }

  ghost predicate IsBounced(s1: State, s': State, t: Tid, r: ReqId, i: ReqId) {
    && s1.interrupts != [] && i == s1.interrupts[0] && r in s1.reqs && i in s1.reqs && r !in s1.list && r !in s1.interrupts
    && s'.list == s1.list + [r] && s'.interrupts == s1.interrupts[1..] && s'.reqs == s1.reqs
    && s'.pcs == s1.pcs[t := Clearing(i, Some(r))]
    && forall u: Tid, q: ReqId | RepliesAt(s'.pcs, u, q) && q != r && q != i :: RepliesAt(s1.pcs, u, q)
  }

  ghost predicate IsPlain(s1: State, s': State, t: Tid, r: ReqId) {
    && r in s1.reqs && r !in s1.list && r !in s1.interrupts
    && s'.list == s1.list + [r] && s'.interrupts == s1.interrupts && s'.reqs == s1.reqs && s'.pcs == s1.pcs[t := Running(r)]
    && forall u: Tid, q: ReqId | RepliesAt(s'.pcs, u, q) && q != r :: RepliesAt(s1.pcs, u, q)
  }

  lemma Matched(s: State, t: Tid, r: ReqId, unique: nat, i: ReqId) returns (k: nat)
    requires Inv(s) && Enabled(s, Dispatch(t, r, unique)) && Touches(s, Dispatch(t, r, unique)) <= s.reqs.Keys
    requires forall q | q in s.interrupts :: q in s.reqs
    requires FindTarget(s.reqs, s.interrupts, unique) == Some(i) && Distinct(s.interrupts) && r !in s.list && r !in s.interrupts
    ensures IsMatched(s.(reqs := s.reqs[r := Fresh(unique, 0)]), Do(s, Dispatch(t, r, unique)), t, r, i, k)
  {
    hide Without, Inv, FindTarget, Distinct;
    k :| 0 <= k < |s.interrupts| && s.interrupts[k] == i;
    RemovedIsWithout(s.interrupts, k);
  }

  lemma Bounced(s: State, t: Tid, r: ReqId, unique: nat)
    requires Enabled(s, Dispatch(t, r, unique)) && Touches(s, Dispatch(t, r, unique)) <= s.reqs.Keys
    requires forall q | q in s.interrupts :: q in s.reqs
    requires FindTarget(s.reqs, s.interrupts, unique) == None && s.interrupts != [] && r !in s.list && r !in s.interrupts
    ensures IsBounced(s.(reqs := s.reqs[r := Fresh(unique, 0)]), Do(s, Dispatch(t, r, unique)), t, r, s.interrupts[0])
  {
    hide Without, FindTarget;
  }

  lemma Plain(s: State, t: Tid, r: ReqId, unique: nat)
    requires Enabled(s, Dispatch(t, r, unique)) && Touches(s, Dispatch(t, r, unique)) <= s.reqs.Keys
    requires s.interrupts == [] && r !in s.list
    ensures IsPlain(s.(reqs := s.reqs[r := Fresh(unique, 0)]), Do(s, Dispatch(t, r, unique)), t, r)
  {
    hide Without;
  }

  ghost predicate IsPursued(s1: State, s': State, t: Tid, i: ReqId, r: ReqId) {
    && r in s1.reqs && SameLists(s1, s') && s'.reqs == s1.reqs[r := s1.reqs[r].(ctr := s1.reqs[r].ctr + 1)]
    && s'.pcs == s1.pcs[t := Found(i, r)]
    && forall u: Tid, q: ReqId | RepliesAt(s'.pcs, u, q) :: RepliesAt(s1.pcs, u, q)
  }

  lemma InterruptCases(s: State, t: Tid, i: ReqId, unique: nat, target: nat)
    requires Enabled(s, Interrupt(t, i, unique, target)) && Touches(s, Interrupt(t, i, unique, target)) <= s.reqs.Keys
    requires forall q | q in s.list || q in s.interrupts :: q in s.reqs
    ensures var s1, s' := s.(reqs := s.reqs[i := Fresh(unique, target)]), Do(s, Interrupt(t, i, unique, target));
            var f := FindUnique(s.reqs, s.list, target);
            && (f.Some? ==> IsPursued(s1, s', t, i, f.value))
            && (f.None? && FindTarget(s.reqs, s.interrupts, target).Some? ==>
                  SameLists(s, s') && s'.reqs == s.reqs && s'.pcs == s.pcs)
            && (f.None? && FindTarget(s.reqs, s.interrupts, target).None? ==>
                  s'.interrupts == s.interrupts + [i] && s'.list == s.list && s'.reqs == s1.reqs && s'.pcs == s.pcs)
  {
    hide FindUnique, FindTarget;
  }

  lemma InvLive(s: State)
    requires Inv(s)
    ensures LiveInv(s)
  {
  }

  lemma LeaveApart(s: State, t: Tid, i: ReqId, r: ReqId)
    requires Inv(s) && t in s.pcs && s.pcs[t] == Pc.Leaving(i, r)
    ensures i != r && i in s.reqs && r in s.reqs
  {
    hide CountInv, LeakInv, ListInv, LockInv, QueueInv, ToldInv;
    assert HoldsAt(s.pcs, t, r) && HoldsAt(s.pcs, t, i) && Interrupting(s.pcs[t]);
  }

  /** The action changes no more than one request and where its thread is. */
  ghost predicate OnlyTouches(s: State, a: Action, t: Tid, r: ReqId, q: Request, pc: Pc)
    requires Enabled(s, a)
  {
    && r in s.reqs
    && (Touches(s, a) <= s.reqs.Keys ==> Do(s, a) == s.(reqs := s.reqs[r := q], pcs := s.pcs[t := pc]))
    && (forall u: Tid, x: ReqId | RepliesAt(s.pcs[t := pc], u, x) :: RepliesAt(s.pcs, u, x))
  }

  /** The session. */
  class Session {
    var reqs: map<ReqId, Request>
    var pcs: map<Tid, Pc>
    var next: Links
    var prev: Links
    ghost var s: State

    ghost predicate Valid()
      reads this
    {
      reqs == s.reqs && pcs == s.pcs && Inv(s) && Rings(next, prev, s)
    }

    constructor ()
      ensures Valid() && s == Initial()
    {
      reqs, pcs := map[], map[];
      next, prev := map[LIST := LIST, QUEUE := QUEUE], map[LIST := LIST, QUEUE := QUEUE];
      s := Initial();
      new;
      hide Inv, Rings;
      InitialInv();
      InitialRings(next, prev);
    }

    /** list_init_req */
    method InitReq(r: ReqId)
      modifies this`next, this`prev
      ensures next == old(next)[r := r] && prev == old(prev)[r := r]
    {
      next := next[r := r];
      prev := prev[r := r];
    }

    /** list_del_req */
    method DelReq(r: ReqId)
      requires r in next && r in prev
      modifies this`next, this`prev
      ensures next == DelNext(old(next), old(prev), r) && prev == DelPrev(old(next), old(prev), r)
    {
      var p, n := prev[r], next[r];
      next := next[p := n];
      prev := prev[n := p];
    }

    /** list_add_req */
    method AddReq(r: ReqId, head: int)
      requires head in prev
      modifies this`next, this`prev
      ensures next == AddNext(old(next), old(prev), r, head) && prev == AddPrev(old(next), old(prev), r, head)
    {
      var p := prev[head];
      next := next[r := head];
      prev := prev[r := p];
      next := next[p := r];
      prev := prev[head := r];
    }

    /** The memory of a request is given back. */
    method FreeReq(r: ReqId)
      modifies this`reqs, this`next, this`prev
      ensures reqs == old(reqs) - {r} && next == old(next) - {r} && prev == old(prev) - {r}
    {
      reqs := reqs - {r};
      next := next - {r};
      prev := prev - {r};
    }

    /** The walk along the in-flight list in find_interrupted. */
    method FindInFlight(unique: nat, ghost list: seq<ReqId>) returns (f: Option<ReqId>)
      requires Linked(next, prev, [LIST] + list) && forall r | r in list :: r in reqs
      ensures f == FindUnique(reqs, list, unique)
    {
      ghost var ring := [LIST] + list;
      RingEnds(next, prev, ring);
      var cur := next[LIST];
      ghost var j := 0;
      assert list[0..] == list;
      while cur != LIST
        invariant 0 <= j <= |list| && cur == SuccAt(ring, j)
        invariant FindUnique(reqs, list, unique) == FindUnique(reqs, list[j..], unique)
        decreases |list| - j
      {
        assert cur == list[j] && list[j] in list && list[j..][1..] == list[j + 1..];
        if reqs[cur].unique == unique {
          return Some(cur);
        }
        RingAt(next, prev, ring, j + 1);
        cur := next[cur];
        j := j + 1;
      }
      assert list[j..] == [];
      return None;
    }

    /** The walk along the queue in find_interrupted and in check_interrupt. */
    method FindQueued(target: nat, ghost queue: seq<ReqId>) returns (f: Option<ReqId>)
      requires Linked(next, prev, [QUEUE] + queue) && forall r | r in queue :: r in reqs
      ensures f == FindTarget(reqs, queue, target)
    {
      ghost var ring := [QUEUE] + queue;
      RingEnds(next, prev, ring);
      var cur := next[QUEUE];
      ghost var j := 0;
      assert queue[0..] == queue;
      while cur != QUEUE
        invariant 0 <= j <= |queue| && cur == SuccAt(ring, j)
        invariant FindTarget(reqs, queue, target) == FindTarget(reqs, queue[j..], target)
        decreases |queue| - j
      {
        assert cur == queue[j] && queue[j] in queue && queue[j..][1..] == queue[j + 1..];
        if reqs[cur].target == target {
          return Some(cur);
        }
        RingAt(next, prev, ring, j + 1);
        cur := next[cur];
        j := j + 1;
      }
      assert queue[j..] == [];
      return None;
    }

    /** A request that is answered with an error at once. */
    method RejectRequest(t: Tid, r: ReqId, unique: nat)
      requires Valid() && Enabled(s, Reject(t, r, unique))
      modifies this
      ensures Valid() && s == Do(old(s), Reject(t, r, unique))
    {
      hide Inv, Rings;
      StepKeepsInv(s, Reject(t, r, unique));
      FreshOff(s, r);
      ghost var s' := Do(s, Reject(t, r, unique));
      InitRings(next, prev, s, s', r);
      reqs := reqs[r := Fresh(unique, 0)];
      InitReq(r);
      pcs := pcs[t := Clearing(r, None)];
      s := s';
    }

    /** The fields agree with a state of the machine. */
    ghost predicate Shows(s: State)
      reads this`reqs, this`pcs, this`next, this`prev
    {
      reqs == s.reqs && pcs == s.pcs && Rings(next, prev, s)
    }

    /** A request is allocated and linked to itself. */
    method Allocate(r: ReqId, q: Request)
      requires Valid() && r !in s.reqs
      modifies this`reqs, this`next, this`prev
      ensures Shows(s.(reqs := s.reqs[r := q]))
      ensures next == old(next)[r := r] && prev == old(prev)[r := r]
    {
      hide Inv, Rings;
      FreshOff(s, r);
      InitRings(next, prev, s, s.(reqs := s.reqs[r := q]), r);
      reqs := reqs[r := q];
      InitReq(r);
    }

    /** check_interrupt has found the INTERRUPT for the new request. */
    method TakeMatch(t: Tid, r: ReqId, i: ReqId, ghost k: nat, ghost s1: State, ghost s': State)
      requires Shows(s1) && IsMatched(s1, s', t, r, i, k)
      modifies this`reqs, this`pcs, this`next, this`prev
      ensures Shows(s')
    {
      hide Rings, AddNext, AddPrev, DelNext, DelPrev, RemoveAt, RepliesAt;
      MatchRings(next, prev, s1, s', r, i, k);
      reqs := reqs[r := reqs[r].(interrupted := true)];
      DelReq(i);
      FreeReq(i);
      AddReq(r, LIST);
      pcs := pcs[t := Running(r)];
    }

    /** check_interrupt bounces the first INTERRUPT, and the new request goes in flight. */
    method TakeFirst(t: Tid, r: ReqId, i: ReqId, ghost s1: State, ghost s': State)
      requires Shows(s1) && IsBounced(s1, s', t, r, i)
      modifies this`reqs, this`pcs, this`next, this`prev
      ensures Shows(s')
    {
      hide Rings, AddNext, AddPrev, DelNext, DelPrev, RepliesAt;
      BounceRings(next, prev, s1, s', r, i);
      DelReq(i);
      InitReq(i);
      AddReq(r, LIST);
      pcs := pcs[t := Clearing(i, Some(r))];
    }

    method PutInFlight(t: Tid, r: ReqId, ghost s1: State, ghost s': State)
      requires Shows(s1) && IsPlain(s1, s', t, r)
      modifies this`reqs, this`pcs, this`next, this`prev
      ensures Shows(s')
    {
      hide Rings, AddNext, AddPrev, RepliesAt;
      AddListRings(next, prev, s1, s', r);
      AddReq(r, LIST);
      pcs := pcs[t := Running(r)];
    }

    /** fuse_ll_process for a request other than INTERRUPT, with check_interrupt. */
    method DispatchRequest(t: Tid, r: ReqId, unique: nat)
      requires Valid() && Enabled(s, Dispatch(t, r, unique))
      modifies this
      ensures Touches(old(s), Dispatch(t, r, unique)) <= old(s).reqs.Keys
      ensures Valid() && s == Do(old(s), Dispatch(t, r, unique))
    {
      hide Inv, Rings, Linked, FindTarget, Without, Do, IsMatched, IsBounced, IsPlain, Distinct, Touches;
      StepKeepsInv(s, Dispatch(t, r, unique));
      assert r !in s.reqs;
      FreshOff(s, r);
      ghost var s' := Do(s, Dispatch(t, r, unique));
      ghost var s1 := s.(reqs := s.reqs[r := Fresh(unique, 0)]);
      Allocate(r, Fresh(unique, 0));
      RingsFacts(next, prev, s1);
      var f := FindQueued(unique, s.interrupts);
      FindTargetSame(s.reqs, s.interrupts, r, Fresh(unique, 0), unique);
      if f.Some? {
        var i := f.value;
        ghost var k := Matched(s, t, r, unique, i);
        TakeMatch(t, r, i, k, s1, s');
      } else if next[QUEUE] != QUEUE {
        Bounced(s, t, r, unique);
        TakeFirst(t, r, next[QUEUE], s1, s');
      } else {
        Plain(s, t, r, unique);
        PutInFlight(t, r, s1, s');
      }
      s := s';
    }

    /** find_interrupted has found the request in flight, and holds on to it. */
    method Pursue(t: Tid, i: ReqId, r: ReqId, ghost s1: State, ghost s': State)
      requires Shows(s1) && IsPursued(s1, s', t, i, r)
      modifies this`reqs, this`pcs
      ensures Shows(s')
    {
      hide Rings, RepliesAt;
      SameListRings(next, prev, s1, s');
      reqs := reqs[r := reqs[r].(ctr := reqs[r].ctr + 1)];
      pcs := pcs[t := Found(i, r)];
    }

    /** do_interrupt, up to the first release of the global lock in find_interrupted. */
    method ReceiveInterrupt(t: Tid, i: ReqId, unique: nat, target: nat)
      requires Valid() && Enabled(s, Interrupt(t, i, unique, target))
      modifies this
      ensures Touches(old(s), Interrupt(t, i, unique, target)) <= old(s).reqs.Keys
      ensures Valid() && s == Do(old(s), Interrupt(t, i, unique, target))
    {
      hide Inv, Rings, Linked, FindTarget, FindUnique, AddNext, AddPrev, Do, IsPursued, Distinct, Touches;
      StepKeepsInv(s, Interrupt(t, i, unique, target));
      assert i !in s.reqs;
      FreshOff(s, i);
      ghost var s' := Do(s, Interrupt(t, i, unique, target));
      ghost var s1 := s.(reqs := s.reqs[i := Fresh(unique, target)]);
      InterruptCases(s, t, i, unique, target);
      NotInMemory(next, prev, s, i);
      Allocate(i, Fresh(unique, target));
      RingsFacts(next, prev, s1);
      var f := FindInFlight(target, s.list);
      FindUniqueSame(s.reqs, s.list, i, Fresh(unique, target), target);
      if f.Some? {
        Pursue(t, i, f.value, s1, s');
      } else {
        var g := FindQueued(target, s.interrupts);
        FindTargetSame(s.reqs, s.interrupts, i, Fresh(unique, target), target);
        if g.Some? {
          FreeReq(i);
          SameListRings(next, prev, s, s');
        } else {
          AddQueueRings(next, prev, s1, s', i);
          AddReq(i, QUEUE);
        }
      }
      s := s';
    }

    /** free_req under the global lock: off its ring and one count down. */
    method Unlink(t: Tid, r: ReqId, after: Option<ReqId>)
      requires Valid() && Enabled(s, Go(t)) && t in pcs && pcs[t] == Pc.Unlinking(r, after)
      modifies this
      ensures Touches(old(s), Go(t)) <= old(s).reqs.Keys
      ensures Valid() && s == Do(old(s), Go(t))
    {
      hide Inv, Rings, Without, DelNext, DelPrev;
      StepKeepsInv(s, Go(t));
      assert r in reqs;
      UnlinkRings(next, prev, s, t, r, after);
      ghost var s' := Do(s, Go(t));
      assert s' == Unlinked(s, t, r, after);
      DelReq(r);
      var q := reqs[r].(ctr := reqs[r].ctr - 1);
      reqs := reqs[r := q];
      pcs := if q.ctr == 0 then pcs[t := Destroying(r, after)] else Continued(pcs, t, after);
      s := s';
    }

    /** destroy_req, by the replier. */
    method Destroy(t: Tid, r: ReqId, after: Option<ReqId>)
      requires Valid() && Enabled(s, Go(t)) && t in pcs && pcs[t] == Pc.Destroying(r, after)
      modifies this
      ensures Touches(old(s), Go(t)) <= old(s).reqs.Keys
      ensures Valid() && s == Do(old(s), Go(t))
    {
      hide Inv, Rings;
      StepKeepsInv(s, Go(t));
      ghost var s' := Do(s, Go(t));
      InvLive(s');
      LessRings(next, prev, s, s', {r});
      FreeReq(r);
      pcs := Continued(pcs, t, after);
      s := s';
    }

    /** The end of find_interrupted: one count down, and the INTERRUPT is done with. */
    method Leave(t: Tid, i: ReqId, r: ReqId)
      requires Valid() && Enabled(s, Go(t)) && t in pcs && pcs[t] == Pc.Leaving(i, r)
      modifies this
      ensures Touches(old(s), Go(t)) <= old(s).reqs.Keys
      ensures Valid() && s == Do(old(s), Go(t))
    {
      hide Inv, Rings;
      StepKeepsInv(s, Go(t));
      ghost var s' := Do(s, Go(t));
      InvLive(s');
      LeaveApart(s, t, i, r);
      var ctr := reqs[r].ctr - 1;
      LessRings(next, prev, s, s', if ctr == 0 then {i, r} else {i});
      reqs := reqs[r := reqs[r].(ctr := ctr)];
      if ctr == 0 {
        FreeReq(r);
      }
      FreeReq(i);
      assert ctr == 0 ==> next == old(next) - {i, r} && prev == old(prev) - {i, r} && reqs == old(reqs) - {i, r};
      assert ctr != 0 ==> reqs == old(reqs)[r := old(reqs)[r].(ctr := ctr)] - {i};
      pcs := pcs - {t};
      s := s';
    }

    /** The steps that only write to the request of the thread. */
    method Touch(a: Action, t: Tid, r: ReqId, q: Request, pc: Pc)
      requires Valid() && Enabled(s, a) && t in pcs && OnlyTouches(s, a, t, r, q, pc)
      modifies this
      ensures Touches(old(s), a) <= old(s).reqs.Keys
      ensures Valid() && s == Do(old(s), a)
    {
      hide Inv, Rings, Do, RepliesAt;
      StepKeepsInv(s, a);
      ghost var s' := Do(s, a);
      SameListRings(next, prev, s, s');
      reqs := reqs[r := q];
      pcs := pcs[t := pc];
      s := s';
    }

    /** The next stretch of what a thread is doing. */
    method Advance(t: Tid)
      requires Valid() && Enabled(s, Go(t))
      modifies this
      ensures Touches(old(s), Go(t)) <= old(s).reqs.Keys
      ensures Valid() && s == Do(old(s), Go(t))
    {
      hide Inv, Rings, Without;
      StepKeepsInv(s, Go(t));
      match pcs[t] {
        case Clearing(r, after) => Touch(Go(t), t, r, reqs[r].(func := false), Pc.Unlinking(r, after));
        case Unlinking(r, after) => Unlink(t, r, after);
        case Destroying(r, after) => Destroy(t, r, after);
        case Found(i, r) => Touch(Go(t), t, r, reqs[r].(lock := Some(t)), Locked(i, r));
        case Locked(i, r) => Touch(Go(t), t, r, reqs[r].(interrupted := true), Marked(i, r));
        case Marked(i, r) =>
          var q := reqs[r];
          Touch(Go(t), t, r, q.(told := q.told || q.func, lock := None), Leaving(i, r));
        case Leaving(i, r) => Leave(t, i, r);
      }
    }

    /** Any step of any thread. */
    method Perform(a: Action)
      requires Valid() && Enabled(s, a)
      modifies this
      ensures Touches(old(s), a) <= old(s).reqs.Keys
      ensures Valid() && s == Do(old(s), a)
    {
      hide Inv, Rings, Without;
      StepKeepsInv(s, a);
      match a {
        case Reject(t, r, unique) => RejectRequest(t, r, unique);
        case Dispatch(t, r, unique) => DispatchRequest(t, r, unique);
        case Interrupt(t, i, unique, target) => ReceiveInterrupt(t, i, unique, target);
        case SetFunc(t, on) =>
          var r := pcs[t].r;
          Touch(a, t, r, reqs[r].(func := on, told := on && reqs[r].interrupted), pcs[t]);
        case Reply(t) =>
          var r := pcs[t].r;
          Touch(a, t, r, reqs[r], Clearing(r, None));
        case Go(t) => Advance(t);
      }
    }

    /** A whole interleaving, as long as each action may happen when it is its turn. */
    method PerformAll(actions: seq<Action>)
      requires Valid() && MayRun(s, actions)
      modifies this
      ensures Valid() && s == RunOf(old(s), actions)
    {
      hide Inv, Rings, Do, Enabled, Touches;
      var n := 0;
      assert actions[0..] == actions;
      while n < |actions|
        invariant n <= |actions| && Valid() && MayRun(s, actions[n..]) && RunOf(s, actions[n..]) == RunOf(old(s), actions)
      {
        assert actions[n..][1..] == actions[n + 1..] && actions[n..][0] == actions[n];
        Perform(actions[n]);
        n := n + 1;
      }
      assert actions[n..] == [];
    }

    lemma NotInMemory(next: Links, prev: Links, s: State, i: ReqId)
      requires Rings(next, prev, s) && i !in s.reqs
      ensures next[i := i] - {i} == next && prev[i := i] - {i} == prev
    {
      assert i !in next && i !in prev;
    }
  }
}
