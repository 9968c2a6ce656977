/**
 The request and interrupt protocol of libfuse-lite, as a state machine whose steps are the
 stretches of code between two mutex operations.

 A request is freed by whoever drops its count to zero: the replier in free_req, or one of the
 interrupters that find_interrupted lets in while it releases and retakes the global lock.
 Freed requests leave `reqs` for `dead`, so touching one would be visible.
 */
module InterruptProtocol {
  import opened Sequences

  type Tid = nat
  type ReqId = nat

  /**
   `target` is the interrupted unique of an INTERRUPT request.  `func` says that an interrupt
   function is registered; `told` that the registered function has been called.
   */
  datatype Request = Request(unique: nat, target: nat, ctr: int, interrupted: bool,
                             func: bool, told: bool, lock: Option<Tid>)

  /** Where a thread is.  `next` is the request to be handled once a bounced INTERRUPT is freed. */
  datatype Pc =
    | Running(r: ReqId)
    | Clearing(r: ReqId, next: Option<ReqId>)
    | Unlinking(r: ReqId, next: Option<ReqId>)
    | Destroying(r: ReqId, next: Option<ReqId>)
    | Found(i: ReqId, r: ReqId)
    | Locked(i: ReqId, r: ReqId)
    | Marked(i: ReqId, r: ReqId)
    | Leaving(i: ReqId, r: ReqId)

  datatype State = State(reqs: map<ReqId, Request>, dead: set<ReqId>,
                         list: seq<ReqId>, interrupts: seq<ReqId>, pcs: map<Tid, Pc>)

  datatype Action =
    | Reject(t: Tid, r: ReqId, unique: nat)                      // a request answered with an error at once
    | Dispatch(t: Tid, r: ReqId, unique: nat)                    // a request other than INTERRUPT
    | Interrupt(t: Tid, i: ReqId, unique: nat, target: nat)      // an INTERRUPT request
    | SetFunc(t: Tid, on: bool)                                  // fuse_req_interrupt_func
    | Reply(t: Tid)                                              // the handler answers
    | Go(t: Tid)                                                 // the next stretch of what the thread is doing

  // ----- the steps

  function Fresh(unique: nat, target: nat): Request {
    Request(unique, target, 1, false, false, false, None)
  }

  /** First element of `s` satisfying the search of the code, by position. */
  function FindUnique(reqs: map<ReqId, Request>, s: seq<ReqId>, unique: nat): (f: Option<ReqId>)
    requires forall r | r in s :: r in reqs
    ensures if f.Some? then f.value in s && reqs[f.value].unique == unique
            else forall r | r in s :: reqs[r].unique != unique
  {
    if s == [] then None
    else if reqs[s[0]].unique == unique then Some(s[0])
    else FindUnique(reqs, s[1..], unique)
  }

  function FindTarget(reqs: map<ReqId, Request>, s: seq<ReqId>, unique: nat): (f: Option<ReqId>)
    requires forall r | r in s :: r in reqs
    ensures if f.Some? then f.value in s && reqs[f.value].target == unique
            else forall r | r in s :: reqs[r].target != unique
  {
    if s == [] then None
    else if reqs[s[0]].target == unique then Some(s[0])
    else FindTarget(reqs, s[1..], unique)
  }

  function Without(s: seq<ReqId>, r: ReqId): seq<ReqId> {
    if s == [] then [] else if s[0] == r then Without(s[1..], r) else [s[0]] + Without(s[1..], r)
  }

  function Elements(s: seq<ReqId>): set<ReqId> {
    set r | r in s
  }

  predicate IsFresh(s: State, r: ReqId) {
    r !in s.reqs && r !in s.dead
  }

  predicate LockFree(s: State, r: ReqId) {
    r in s.reqs && s.reqs[r].lock == None
  }

  /** May the action happen?  Only what the thread is doing and mutexes decide. */
  predicate Enabled(s: State, a: Action) {
    match a
    case Reject(t, r, _) => t !in s.pcs && IsFresh(s, r)
    case Dispatch(t, r, _) => t !in s.pcs && IsFresh(s, r)
    case Interrupt(t, i, _, _) => t !in s.pcs && IsFresh(s, i)
    case SetFunc(t, _) => t in s.pcs && s.pcs[t].Running? && (s.pcs[t].r in s.reqs ==> LockFree(s, s.pcs[t].r))
    case Reply(t) => t in s.pcs && s.pcs[t].Running?
    case Go(t) =>
      && t in s.pcs && !s.pcs[t].Running?
      && (s.pcs[t].Clearing? || s.pcs[t].Found? ==> s.pcs[t].r in s.reqs ==> LockFree(s, s.pcs[t].r))
  }

  /** The requests whose memory the action reads or writes. */
  function Touches(s: State, a: Action): set<ReqId>
    requires Enabled(s, a)
  {
    match a
    case Reject(_, _, _) => {}
    case Dispatch(_, _, _) => Elements(s.list) + Elements(s.interrupts)
    case Interrupt(_, _, _, _) => Elements(s.list) + Elements(s.interrupts)
    case SetFunc(t, _) => {s.pcs[t].r}
    case Reply(t) => {s.pcs[t].r}
    case Go(t) =>
      match s.pcs[t]
      case Clearing(r, _) => {r}
      case Unlinking(r, _) => {r} + Elements(s.list)
      case Destroying(r, _) => {r}
      case Found(_, r) => {r}
      case Locked(_, r) => {r}
      case Marked(_, r) => {r}
      case Leaving(i, r) => {i, r}
  }

  /** What the thread does once it is done with a bounced INTERRUPT or with its reply. */
  function Continued(pcs: map<Tid, Pc>, t: Tid, next: Option<ReqId>): map<Tid, Pc> {
    if next.None? then pcs - {t} else pcs[t := Running(next.value)]
  }

  /** The dispatch part of fuse_ll_process, with check_interrupt. */
  function DoDispatch(s: State, t: Tid, r: ReqId, unique: nat): State
    requires Elements(s.list) + Elements(s.interrupts) <= s.reqs.Keys
  {
    var match_ := FindTarget(s.reqs, s.interrupts, unique);
    if match_.Some? then
      var i := match_.value;
      s.(reqs := (s.reqs - {i})[r := Fresh(unique, 0).(interrupted := true)], dead := s.dead + {i},
         interrupts := Without(s.interrupts, i), list := s.list + [r], pcs := s.pcs[t := Running(r)])
    else if s.interrupts != [] then
      var i := s.interrupts[0];
      s.(reqs := s.reqs[r := Fresh(unique, 0)], interrupts := s.interrupts[1..],
         list := s.list + [r], pcs := s.pcs[t := Clearing(i, Some(r))])
    else
      s.(reqs := s.reqs[r := Fresh(unique, 0)], list := s.list + [r], pcs := s.pcs[t := Running(r)])
  }

  /** do_interrupt up to the first release of the global lock. */
  function DoInterrupt(s: State, t: Tid, i: ReqId, unique: nat, target: nat): State
    requires Elements(s.list) + Elements(s.interrupts) <= s.reqs.Keys
  {
    var found := FindUnique(s.reqs, s.list, target);
    if found.Some? then
      var r := found.value;
      s.(reqs := s.reqs[r := s.reqs[r].(ctr := s.reqs[r].ctr + 1)][i := Fresh(unique, target)],
         pcs := s.pcs[t := Found(i, r)])
    else if FindTarget(s.reqs, s.interrupts, target).Some? then s.(dead := s.dead + {i})
    else s.(reqs := s.reqs[i := Fresh(unique, target)], interrupts := s.interrupts + [i])
  }

  function DoGo(s: State, t: Tid): State
    requires Enabled(s, Go(t)) && Touches(s, Go(t)) <= s.reqs.Keys
  {
    match s.pcs[t]
    case Clearing(r, next) =>
      s.(reqs := s.reqs[r := s.reqs[r].(func := false)], pcs := s.pcs[t := Unlinking(r, next)])
    case Unlinking(r, next) =>
      var q := s.reqs[r].(ctr := s.reqs[r].ctr - 1);
      s.(reqs := s.reqs[r := q], list := Without(s.list, r),
         pcs := if q.ctr == 0 then s.pcs[t := Destroying(r, next)] else Continued(s.pcs, t, next))
    case Destroying(r, next) =>
      s.(reqs := s.reqs - {r}, dead := s.dead + {r}, pcs := Continued(s.pcs, t, next))
    case Found(i, r) =>
      s.(reqs := s.reqs[r := s.reqs[r].(lock := Some(t))], pcs := s.pcs[t := Locked(i, r)])
    case Locked(i, r) =>
      s.(reqs := s.reqs[r := s.reqs[r].(interrupted := true)], pcs := s.pcs[t := Marked(i, r)])
    case Marked(i, r) =>
      var q := s.reqs[r];
      s.(reqs := s.reqs[r := q.(told := q.told || q.func, lock := None)], pcs := s.pcs[t := Leaving(i, r)])
    case Leaving(i, r) =>
      var q := s.reqs[r].(ctr := s.reqs[r].ctr - 1);
      if q.ctr == 0 then
        s.(reqs := s.reqs - {i, r}, dead := s.dead + {i, r}, pcs := s.pcs - {t})
      else
        s.(reqs := s.reqs[r := q] - {i}, dead := s.dead + {i}, pcs := s.pcs - {t})
  }

  function Do(s: State, a: Action): State
    requires Enabled(s, a) && Touches(s, a) <= s.reqs.Keys
  {
    match a
    case Reject(t, r, unique) =>
      s.(reqs := s.reqs[r := Fresh(unique, 0)], pcs := s.pcs[t := Clearing(r, None)])
    case Dispatch(t, r, unique) => DoDispatch(s, t, r, unique)
    case Interrupt(t, i, unique, target) => DoInterrupt(s, t, i, unique, target)
    case SetFunc(t, on) =>
      var r := s.pcs[t].r;
      var q := s.reqs[r];
      s.(reqs := s.reqs[r := q.(func := on, told := on && q.interrupted)])
    case Reply(t) => s.(pcs := s.pcs[t := Clearing(s.pcs[t].r, None)])
    case Go(t) => DoGo(s, t)
  }

  function Initial(): State {
    State(map[], {}, [], [], map[])
  }

  // ----- the invariant

  /** The thread holds a count on `r` as its replier. */
  predicate Replies(pc: Pc, r: ReqId) {
    match pc
    case Running(q) => q == r
    case Clearing(q, next) => q == r || next == Some(r)
    case Unlinking(q, next) => q == r || next == Some(r)
    case Destroying(_, next) => next == Some(r)
    case _ => false
  }

  predicate Interrupting(pc: Pc) {
    pc.Found? || pc.Locked? || pc.Marked? || pc.Leaving?
  }

  /** The thread holds a count on `r`: as replier, as interrupter of it, or for its own INTERRUPT. */
  predicate Holds(pc: Pc, r: ReqId) {
    Replies(pc, r) || (Interrupting(pc) && (pc.r == r || pc.i == r))
  }

  predicate HasLock(pc: Pc, r: ReqId) {
    (pc.Locked? || pc.Marked?) && pc.r == r
  }

  predicate HoldsAt(pcs: map<Tid, Pc>, t: Tid, r: ReqId) {
    t in pcs && Holds(pcs[t], r)
  }

  ghost function Holders(pcs: map<Tid, Pc>, r: ReqId): set<Tid> {
    set t | t in pcs && Holds(pcs[t], r)
  }

  /** Nothing freed is ever named: by a thread, by the in-flight list, or by the queue. */
  ghost predicate LiveInv(s: State) {
    && s.reqs.Keys !! s.dead
    && (forall r | r in s.list :: r in s.reqs)
    && (forall r | r in s.interrupts :: r in s.reqs)
    && (forall t, r | t in s.pcs && Holds(s.pcs[t], r) :: r in s.reqs)
    && (forall t | t in s.pcs && s.pcs[t].Destroying? :: s.pcs[t].r in s.reqs)
  }

  /** The count of a request is the number of those who still hold it. */
  ghost predicate CountInv(s: State) {
    forall r | r in s.reqs :: s.reqs[r].ctr == |Holders(s.pcs, r)| + (if r in s.interrupts then 1 else 0)
  }

  /** A count of zero means that exactly one thread is about to free the request. */
  ghost predicate LeakInv(s: State) {
    && (forall r | r in s.reqs && s.reqs[r].ctr == 0 :: exists t :: t in s.pcs && s.pcs[t].Destroying? && s.pcs[t].r == r)
    && (forall t | t in s.pcs && s.pcs[t].Destroying? && s.pcs[t].r in s.reqs :: s.reqs[s.pcs[t].r].ctr == 0)
    && (forall t, u | t in s.pcs && u in s.pcs && s.pcs[t].Destroying? && s.pcs[u].Destroying? && s.pcs[t].r == s.pcs[u].r :: t == u)
  }

  /** In-flight requests have a replier, and only one. */
  ghost predicate ListInv(s: State) {
    && Distinct(s.list) && Distinct(s.interrupts)
    && (forall r | r in s.list :: exists t :: t in s.pcs && Replies(s.pcs[t], r))
    && (forall t, u, r | t in s.pcs && u in s.pcs && Replies(s.pcs[t], r) && Replies(s.pcs[u], r) :: t == u)
  }

  /** An INTERRUPT request has one holder, and is never itself in flight. */
  ghost predicate RoleInv(s: State) {
    && (forall r | r in s.interrupts :: r !in s.list && (r in s.reqs ==> s.reqs[r].ctr == 1))
    && (forall t | t in s.pcs && Interrupting(s.pcs[t]) ::
          s.pcs[t].i != s.pcs[t].r && s.pcs[t].i !in s.list && (s.pcs[t].i in s.reqs ==> s.reqs[s.pcs[t].i].ctr == 1))
    && (forall t | t in s.pcs && (s.pcs[t].Clearing? || s.pcs[t].Unlinking? || s.pcs[t].Destroying?) ::
          s.pcs[t].next != Some(s.pcs[t].r))
  }

  /** The mutex of a request is held exactly by the interrupter working on it. */
  ghost predicate LockInv(s: State) {
    forall r, t | r in s.reqs :: s.reqs[r].lock == Some(t) <==> t in s.pcs && HasLock(s.pcs[t], r)
  }

  /** No interrupt waits in the queue beside its request, and none waits twice. */
  ghost predicate QueueInv(s: State) {
    && (forall i, j | i in s.interrupts && j in s.interrupts && i != j && i in s.reqs && j in s.reqs ::
          s.reqs[i].target != s.reqs[j].target)
    && (forall i, r | i in s.interrupts && r in s.list && i in s.reqs && r in s.reqs ::
          s.reqs[i].target != s.reqs[r].unique)
  }

  /** Once the mutex is free again, an interrupted request with a function has had it called. */
  ghost predicate ToldInv(s: State) {
    forall r | r in s.reqs :: s.reqs[r].lock == None && s.reqs[r].interrupted && s.reqs[r].func ==> s.reqs[r].told
  }

  ghost predicate Inv(s: State) {
    && LiveInv(s) && CountInv(s) && LeakInv(s) && ListInv(s)
    && RoleInv(s) && LockInv(s) && QueueInv(s) && ToldInv(s)
  }

  // ----- safety of a step

  /** Whatever a thread is about to touch has not been freed. */
  lemma TouchesLive(s: State, a: Action)
    requires Inv(s) && Enabled(s, a)
    ensures Touches(s, a) <= s.reqs.Keys
    ensures Touches(s, a) !! s.dead
  {
    hide CountInv, LeakInv, ListInv, RoleInv, LockInv, QueueInv, ToldInv;
    match a
    case SetFunc(t, _) => assert Holds(s.pcs[t], s.pcs[t].r);
    case Reply(t) => assert Holds(s.pcs[t], s.pcs[t].r);
    case Go(t) =>
      if !s.pcs[t].Destroying? { assert Holds(s.pcs[t], s.pcs[t].r); }
      if s.pcs[t].Leaving? { assert Holds(s.pcs[t], s.pcs[t].i); }
    case _ =>
  }

  // ----- counting

  /** Only thread `t` has moved. */
  ghost predicate OnlyMoved(pcs: map<Tid, Pc>, pcs': map<Tid, Pc>, t: Tid) {
    forall u: Tid | u != t :: (u in pcs <==> u in pcs') && (u in pcs ==> pcs[u] == pcs'[u])
  }

  lemma HoldersDelta(pcs: map<Tid, Pc>, pcs': map<Tid, Pc>, t: Tid, r: ReqId)
    requires OnlyMoved(pcs, pcs', t)
    ensures |Holders(pcs', r)| == |Holders(pcs, r)| - (if HoldsAt(pcs, t, r) then 1 else 0)
                                                    + (if HoldsAt(pcs', t, r) then 1 else 0)
  {
    hide Holds;
    var a, b := Holders(pcs, r), Holders(pcs', r);
    forall u: Tid | u != t
      ensures u in a <==> u in b
    {
      assert u in pcs <==> u in pcs';
    }
    assert a - {t} == b - {t};
    WithoutOne(a, t);
    WithoutOne(b, t);
  }

  lemma WithoutOne(a: set<Tid>, t: Tid)
    ensures |a - {t}| == if t in a then |a| - 1 else |a|
  {
    if t !in a { assert a - {t} == a; }
  }

  // ----- preservation: for each conjunct, what a step of thread `t` has to respect

  function Bit(b: bool): int {
    if b then 1 else 0
  }

  function Ctr(s: State, r: ReqId): int {
    if r in s.reqs then s.reqs[r].ctr else 0
  }

  predicate Destroys(pcs: map<Tid, Pc>, t: Tid, r: ReqId) {
    t in pcs && pcs[t].Destroying? && pcs[t].r == r
  }

  predicate RepliesAt(pcs: map<Tid, Pc>, t: Tid, r: ReqId) {
    t in pcs && Replies(pcs[t], r)
  }

  predicate OwnsAt(pcs: map<Tid, Pc>, t: Tid, r: ReqId) {
    t in pcs && Interrupting(pcs[t]) && pcs[t].i == r
  }

  /** No thread but `t` has anything to do with `r`. */
  ghost predicate Private(s: State, t: Tid, r: ReqId) {
    forall u: Tid | u != t :: !HoldsAt(s.pcs, u, r) && !Destroys(s.pcs, u, r)
  }

  lemma NoHolders(s: State, r: ReqId)
    requires LiveInv(s) && r !in s.reqs
    ensures Holders(s.pcs, r) == {} && r !in s.interrupts && r !in s.list
    ensures forall t: Tid :: !HoldsAt(s.pcs, t, r) && !Destroys(s.pcs, t, r)
  {
    hide Holds;
  }

  /** The holder of the only count on `r` is alone with it. */
  lemma OnlyHolder(s: State, t: Tid, r: ReqId)
    requires CountInv(s) && LeakInv(s) && r in s.reqs && s.reqs[r].ctr == 1 && HoldsAt(s.pcs, t, r)
    ensures Private(s, t, r) && r !in s.interrupts
  {
    hide Holds;
    var h := Holders(s.pcs, r);
    assert t in h && |h| <= 1;
    forall u: Tid | u != t
      ensures !HoldsAt(s.pcs, u, r) && !Destroys(s.pcs, u, r)
    {
      if HoldsAt(s.pcs, u, r) { TwoIn(h, t, u); }
    }
  }

  lemma TwoIn(h: set<Tid>, t: Tid, u: Tid)
    requires t in h && u in h && t != u
    ensures |h| >= 2
  {
    assert {t, u} <= h;
    assert |h| == |h - {t}| + 1 && |h - {t}| == |h - {t} - {u}| + 1;
  }

  /** Nobody holds a request that is queued with a count of one, or whose count is zero. */
  lemma Unheld(s: State, r: ReqId)
    requires CountInv(s) && LeakInv(s) && r in s.reqs && s.reqs[r].ctr == Bit(r in s.interrupts)
    ensures Holders(s.pcs, r) == {}
    ensures forall t: Tid :: !HoldsAt(s.pcs, t, r)
    ensures s.reqs[r].ctr == 1 ==> forall t: Tid :: !Destroys(s.pcs, t, r)
  {
    hide Holds;
    var h := Holders(s.pcs, r);
    assert |h| == 0;
    assert forall t: Tid | HoldsAt(s.pcs, t, r) :: t in h;
  }

  lemma KeepLive(s: State, s': State, t: Tid)
    requires LiveInv(s) && OnlyMoved(s.pcs, s'.pcs, t)
    requires s'.reqs.Keys !! s'.dead
    requires forall r | r in s'.list :: r in s'.reqs
    requires forall r | r in s'.interrupts :: r in s'.reqs
    requires forall r: ReqId | HoldsAt(s'.pcs, t, r) || Destroys(s'.pcs, t, r) :: r in s'.reqs
    requires forall r | r in s.reqs && r !in s'.reqs :: Private(s, t, r)
    ensures LiveInv(s')
  {
    hide Holds;
    forall u, r | u in s'.pcs && Holds(s'.pcs[u], r)
      ensures r in s'.reqs
    {
      assert HoldsAt(s'.pcs, u, r);
      if u != t { assert HoldsAt(s.pcs, u, r); }
    }
    forall u | u in s'.pcs && s'.pcs[u].Destroying?
      ensures s'.pcs[u].r in s'.reqs
    {
      var r := s'.pcs[u].r;
      assert Destroys(s'.pcs, u, r);
      if u != t { assert Destroys(s.pcs, u, r); }
    }
  }

  lemma KeepCount(s: State, s': State, t: Tid)
    requires LiveInv(s) && CountInv(s) && OnlyMoved(s.pcs, s'.pcs, t)
    requires forall r | r in s'.reqs :: s'.reqs[r].ctr - Ctr(s, r) ==
               Bit(HoldsAt(s'.pcs, t, r)) - Bit(HoldsAt(s.pcs, t, r)) + Bit(r in s'.interrupts) - Bit(r in s.interrupts)
    ensures CountInv(s')
  {
    hide Holds;
    forall r | r in s'.reqs
      ensures s'.reqs[r].ctr == |Holders(s'.pcs, r)| + (if r in s'.interrupts then 1 else 0)
    {
      HoldersDelta(s.pcs, s'.pcs, t, r);
      if r !in s.reqs { NoHolders(s, r); }
    }
  }

  lemma KeepLeak(s: State, s': State, t: Tid)
    requires LiveInv(s) && LeakInv(s) && OnlyMoved(s.pcs, s'.pcs, t)
    requires forall r | r in s'.reqs && s'.reqs[r].ctr == 0 ::
               Destroys(s'.pcs, t, r) || (r in s.reqs && s.reqs[r].ctr == 0 && !Destroys(s.pcs, t, r))
    requires forall r | r in s.reqs && r in s'.reqs && s.reqs[r].ctr == 0 :: s'.reqs[r].ctr == 0
    requires forall r: ReqId | Destroys(s'.pcs, t, r) && r in s'.reqs :: s'.reqs[r].ctr == 0 && r in s.reqs && s.reqs[r].ctr != 0
    requires forall r | r in s'.reqs && r !in s.reqs :: s'.reqs[r].ctr != 0
    requires forall r: ReqId | Destroys(s'.pcs, t, r) :: r in s'.reqs
    ensures LeakInv(s')
  {
    forall r | r in s'.reqs && s'.reqs[r].ctr == 0
      ensures exists u :: u in s'.pcs && s'.pcs[u].Destroying? && s'.pcs[u].r == r
    {
      if !Destroys(s'.pcs, t, r) {
        var u :| u in s.pcs && s.pcs[u].Destroying? && s.pcs[u].r == r;
        assert Destroys(s.pcs, u, r) && u != t;
        assert u in s'.pcs;
      }
    }
    forall u | u in s'.pcs && s'.pcs[u].Destroying? && s'.pcs[u].r in s'.reqs
      ensures s'.reqs[s'.pcs[u].r].ctr == 0
    {
      var r := s'.pcs[u].r;
      assert Destroys(s'.pcs, u, r);
      if u != t { assert u in s.pcs && s.pcs[u] == s'.pcs[u] && r in s.reqs; }
    }
    forall u, v | u in s'.pcs && v in s'.pcs && s'.pcs[u].Destroying? && s'.pcs[v].Destroying? && s'.pcs[u].r == s'.pcs[v].r
      ensures u == v
    {
      var r := s'.pcs[u].r;
      assert Destroys(s'.pcs, u, r) && Destroys(s'.pcs, v, r);
      assert u != t ==> u in s.pcs && s.pcs[u] == s'.pcs[u];
      assert v != t ==> v in s.pcs && s.pcs[v] == s'.pcs[v];
    }
  }

  lemma KeepList(s: State, s': State, t: Tid)
    requires ListInv(s) && OnlyMoved(s.pcs, s'.pcs, t)
    requires Distinct(s'.list) && Distinct(s'.interrupts)
    requires forall r | r in s'.list :: RepliesAt(s'.pcs, t, r) || (r in s.list && !RepliesAt(s.pcs, t, r))
    requires forall r: ReqId, u: Tid | u != t && RepliesAt(s'.pcs, t, r) && !RepliesAt(s.pcs, t, r) :: !RepliesAt(s.pcs, u, r)
    ensures ListInv(s')
  {
    hide Replies;
    forall r | r in s'.list
      ensures exists u :: u in s'.pcs && Replies(s'.pcs[u], r)
    {
      if !RepliesAt(s'.pcs, t, r) {
        var u :| u in s.pcs && Replies(s.pcs[u], r);
        assert RepliesAt(s.pcs, u, r) && u != t && u in s'.pcs;
      }
    }
    forall u, v, r | u in s'.pcs && v in s'.pcs && Replies(s'.pcs[u], r) && Replies(s'.pcs[v], r)
      ensures u == v
    {
      assert RepliesAt(s'.pcs, u, r) && RepliesAt(s'.pcs, v, r);
      assert u != t ==> RepliesAt(s.pcs, u, r);
      assert v != t ==> RepliesAt(s.pcs, v, r);
    }
  }

  /** The thread itself respects the roles of the requests it names. */
  ghost predicate RoleAt(s: State, t: Tid) {
    t in s.pcs ==>
      && (Interrupting(s.pcs[t]) ==> && s.pcs[t].i != s.pcs[t].r && s.pcs[t].i !in s.list
                                     && (s.pcs[t].i in s.reqs ==> s.reqs[s.pcs[t].i].ctr == 1))
      && (s.pcs[t].Clearing? || s.pcs[t].Unlinking? || s.pcs[t].Destroying? ==> s.pcs[t].next != Some(s.pcs[t].r))
  }

  lemma KeepRole(s: State, s': State, t: Tid)
    requires LiveInv(s) && RoleInv(s) && OnlyMoved(s.pcs, s'.pcs, t) && RoleAt(s', t)
    requires forall r | r in s'.interrupts :: r !in s'.list && (r in s'.reqs ==> s'.reqs[r].ctr == 1)
    requires forall r, u: Tid | r in s.reqs && u != t && OwnsAt(s.pcs, u, r) ::
               (r in s'.list ==> r in s.list) && (r in s'.reqs ==> s'.reqs[r].ctr == s.reqs[r].ctr)
    ensures RoleInv(s')
  {
    forall u | u in s'.pcs && Interrupting(s'.pcs[u])
      ensures s'.pcs[u].i != s'.pcs[u].r && s'.pcs[u].i !in s'.list && (s'.pcs[u].i in s'.reqs ==> s'.reqs[s'.pcs[u].i].ctr == 1)
    {
      if u != t {
        assert u in s.pcs && s.pcs[u] == s'.pcs[u];
        assert OwnsAt(s.pcs, u, s.pcs[u].i) && Holds(s.pcs[u], s.pcs[u].i);
      }
    }
    forall u | u in s'.pcs && (s'.pcs[u].Clearing? || s'.pcs[u].Unlinking? || s'.pcs[u].Destroying?)
      ensures s'.pcs[u].next != Some(s'.pcs[u].r)
    {
      if u != t { assert u in s.pcs && s.pcs[u] == s'.pcs[u]; }
    }
  }

  predicate LockAt(pcs: map<Tid, Pc>, t: Tid, r: ReqId) {
    t in pcs && HasLock(pcs[t], r)
  }

  lemma KeepLock(s: State, s': State, t: Tid)
    requires LiveInv(s) && LockInv(s) && OnlyMoved(s.pcs, s'.pcs, t)
    requires forall r | r in s'.reqs && r !in s.reqs :: s'.reqs[r].lock == None && !LockAt(s'.pcs, t, r)
    requires forall r | r in s'.reqs && r in s.reqs ::
               if LockAt(s'.pcs, t, r) then s'.reqs[r].lock == Some(t) && (s.reqs[r].lock == None || s.reqs[r].lock == Some(t))
               else if LockAt(s.pcs, t, r) then s'.reqs[r].lock == None
               else s'.reqs[r].lock == s.reqs[r].lock
    ensures LockInv(s')
  {
    hide HasLock;
    forall r, u | r in s'.reqs
      ensures s'.reqs[r].lock == Some(u) <==> u in s'.pcs && HasLock(s'.pcs[u], r)
    {
      assert LockAt(s'.pcs, u, r) <==> u in s'.pcs && HasLock(s'.pcs[u], r);
      assert u != t ==> (LockAt(s'.pcs, u, r) <==> LockAt(s.pcs, u, r));
      if r !in s.reqs {
        assert !LockAt(s.pcs, u, r) by { LockHeldLive(s, u, r); }
      }
    }
  }

  lemma LockHeldLive(s: State, u: Tid, r: ReqId)
    requires LiveInv(s)
    ensures LockAt(s.pcs, u, r) ==> r in s.reqs
  {
    if LockAt(s.pcs, u, r) { assert Holds(s.pcs[u], r); }
  }

  lemma KeepQueue(s: State, s': State)
    requires QueueInv(s)
    requires forall r | r in s.reqs && r in s'.reqs :: s'.reqs[r].unique == s.reqs[r].unique && s'.reqs[r].target == s.reqs[r].target
    requires forall r | r in s'.interrupts :: r in s.interrupts && r in s.reqs
    requires forall r | r in s'.list :: r in s.list && r in s.reqs
    ensures QueueInv(s')
  {
  }

  lemma KeepTold(s: State, s': State, r: ReqId)
    requires ToldInv(s) && r in s'.reqs && s'.reqs.Keys == s.reqs.Keys && forall q | q in s.reqs && q != r :: s'.reqs[q] == s.reqs[q]
    requires s'.reqs[r].lock == None && s'.reqs[r].interrupted && s'.reqs[r].func ==> s'.reqs[r].told
    ensures ToldInv(s')
  {
  }

  // ----- the steps

  /** A step that only moves a thread on, or changes flags of one request it holds. */
  lemma QuietStep(s: State, s': State, t: Tid, r: ReqId)
    requires Inv(s) && t in s.pcs && t in s'.pcs && OnlyMoved(s.pcs, s'.pcs, t) && r in s.reqs && r in s'.reqs
    requires s'.dead == s.dead && s'.list == s.list && s'.interrupts == s.interrupts
    requires s'.reqs.Keys == s.reqs.Keys
    requires forall q | q in s.reqs && q != r :: s'.reqs[q] == s.reqs[q]
    requires s'.reqs[r].ctr == s.reqs[r].ctr && s'.reqs[r].unique == s.reqs[r].unique && s'.reqs[r].target == s.reqs[r].target
    requires !s.pcs[t].Destroying? && !s'.pcs[t].Destroying?
    requires forall q: ReqId :: Replies(s'.pcs[t], q) <==> Replies(s.pcs[t], q)
    requires Interrupting(s.pcs[t]) <==> Interrupting(s'.pcs[t])
    requires Interrupting(s.pcs[t]) ==> s.pcs[t].i == s'.pcs[t].i && s.pcs[t].r == s'.pcs[t].r
    requires s'.pcs[t].Clearing? || s'.pcs[t].Unlinking? ==> s'.pcs[t].next != Some(s'.pcs[t].r)
    requires forall q | q in s.reqs && q != r :: !LockAt(s.pcs, t, q) && !LockAt(s'.pcs, t, q)
    requires if LockAt(s'.pcs, t, r) then s'.reqs[r].lock == Some(t) && (s.reqs[r].lock == None || s.reqs[r].lock == Some(t))
             else if LockAt(s.pcs, t, r) then s'.reqs[r].lock == None
             else s'.reqs[r].lock == s.reqs[r].lock
    requires s'.reqs[r].lock == None && s'.reqs[r].interrupted && s'.reqs[r].func ==> s'.reqs[r].told
    ensures Inv(s')
  {
    hide Replies, LiveInv, CountInv, LeakInv, ListInv, RoleInv, LockInv, QueueInv, ToldInv, HasLock;
    KeepTold(s, s', r);
    assert forall q: ReqId :: HoldsAt(s'.pcs, t, q) <==> HoldsAt(s.pcs, t, q);
    QuietFacts(s, t);
    KeepLive(s, s', t);
    KeepCount(s, s', t);
    KeepLeak(s, s', t);
    KeepList(s, s', t);
    KeepRole(s, s', t);
    KeepLock(s, s', t);
    KeepQueue(s, s');
  }

  /** What the invariant says of the lists and of one thread, unpacked. */
  lemma QuietFacts(s: State, t: Tid)
    requires Inv(s)
    ensures s.reqs.Keys !! s.dead
    ensures forall r | r in s.list :: r in s.reqs
    ensures forall r | r in s.interrupts :: r in s.reqs && r !in s.list && s.reqs[r].ctr == 1
    ensures forall r: ReqId | HoldsAt(s.pcs, t, r) || Destroys(s.pcs, t, r) :: r in s.reqs
    ensures Distinct(s.list) && Distinct(s.interrupts)
    ensures RoleAt(s, t)
  {
    hide CountInv, LeakInv, LockInv, QueueInv, ToldInv, Holds;
  }

  lemma StepSetFunc(s: State, t: Tid, on: bool)
    requires Inv(s) && Enabled(s, SetFunc(t, on)) && s.pcs[t].r in s.reqs
    ensures Inv(Do(s, SetFunc(t, on)))
  {
    hide LiveInv, CountInv, LeakInv, ListInv, RoleInv, LockInv, QueueInv, ToldInv;
    QuietStep(s, Do(s, SetFunc(t, on)), t, s.pcs[t].r);
  }

  lemma StepReply(s: State, t: Tid)
    requires Inv(s) && Enabled(s, Reply(t)) && s.pcs[t].r in s.reqs
    ensures Inv(Do(s, Reply(t)))
  {
    hide LiveInv, CountInv, LeakInv, ListInv, RoleInv, LockInv, QueueInv;
    QuietStep(s, Do(s, Reply(t)), t, s.pcs[t].r);
  }

  /** free_req clears the interrupt function under the request's own mutex. */
  lemma StepClear(s: State, t: Tid, r: ReqId, next: Option<ReqId>)
    requires Inv(s) && t in s.pcs && s.pcs[t] == Clearing(r, next) && r in s.reqs
    ensures Inv(s.(reqs := s.reqs[r := s.reqs[r].(func := false)], pcs := s.pcs[t := Unlinking(r, next)]))
  {
    hide Inv, ToldInv;
    QuietFacts(s, t);
    QuietStep(s, s.(reqs := s.reqs[r := s.reqs[r].(func := false)], pcs := s.pcs[t := Unlinking(r, next)]), t, r);
  }

  /** The interrupter takes the mutex of the request it found. */
  lemma StepFound(s: State, t: Tid, i: ReqId, r: ReqId)
    requires Inv(s) && t in s.pcs && s.pcs[t] == Found(i, r) && LockFree(s, r)
    ensures Inv(s.(reqs := s.reqs[r := s.reqs[r].(lock := Some(t))], pcs := s.pcs[t := Locked(i, r)]))
  {
    hide Inv, ToldInv;
    QuietStep(s, s.(reqs := s.reqs[r := s.reqs[r].(lock := Some(t))], pcs := s.pcs[t := Locked(i, r)]), t, r);
  }

  lemma StepLocked(s: State, t: Tid, i: ReqId, r: ReqId)
    requires Inv(s) && t in s.pcs && s.pcs[t] == Locked(i, r) && r in s.reqs
    ensures Inv(s.(reqs := s.reqs[r := s.reqs[r].(interrupted := true)], pcs := s.pcs[t := Marked(i, r)]))
  {
    hide Inv, ToldInv;
    LockFacts(s, t);
    QuietStep(s, s.(reqs := s.reqs[r := s.reqs[r].(interrupted := true)], pcs := s.pcs[t := Marked(i, r)]), t, r);
  }

  /** It calls the function if there is one, and gives the mutex back. */
  lemma StepMarked(s: State, t: Tid, i: ReqId, r: ReqId)
    requires Inv(s) && t in s.pcs && s.pcs[t] == Marked(i, r) && r in s.reqs
    ensures var q := s.reqs[r];
            Inv(s.(reqs := s.reqs[r := q.(told := q.told || q.func, lock := None)], pcs := s.pcs[t := Leaving(i, r)]))
  {
    hide Inv, ToldInv;
    LockFacts(s, t);
    var q := s.reqs[r];
    QuietStep(s, s.(reqs := s.reqs[r := q.(told := q.told || q.func, lock := None)], pcs := s.pcs[t := Leaving(i, r)]), t, r);
  }

  lemma LockFacts(s: State, t: Tid)
    requires Inv(s) && t in s.pcs && s.pcs[t].r in s.reqs
    ensures s.pcs[t].Locked? || s.pcs[t].Marked? ==> s.reqs[s.pcs[t].r].lock == Some(t)
    ensures forall r | r in s.reqs && r != s.pcs[t].r :: !LockAt(s.pcs, t, r)
  {
  }

  lemma {:induction false} WithoutFacts(s: seq<ReqId>, r: ReqId)
    requires Distinct(s)
    ensures Distinct(Without(s, r))
    ensures forall q :: q in Without(s, r) <==> q in s && q != r
  {
    if s != [] {
      assert forall i, j | 0 <= i < j < |s[1..]| :: s[1..][i] == s[i + 1] && s[1..][j] == s[j + 1];
      WithoutFacts(s[1..], r);
      assert forall q :: q in s <==> q == s[0] || q in s[1..];
      assert forall i | 0 <= i < |s[1..]| :: s[1..][i] == s[i + 1];
      DistinctCons(s[0], Without(s[1..], r));
    }
  }

  lemma DistinctCons(r: ReqId, s: seq<ReqId>)
    requires Distinct(s) && r !in s
    ensures Distinct([r] + s)
  {
  }

  lemma DistinctSnoc(s: seq<ReqId>, r: ReqId)
    requires Distinct(s) && r !in s
    ensures Distinct(s + [r])
  {
  }

  /** The state after free_req has gone through the global lock. */
  function Unlinked(s: State, t: Tid, r: ReqId, next: Option<ReqId>): State
    requires r in s.reqs
  {
    var q := s.reqs[r].(ctr := s.reqs[r].ctr - 1);
    s.(reqs := s.reqs[r := q], list := Without(s.list, r),
       pcs := if q.ctr == 0 then s.pcs[t := Destroying(r, next)] else Continued(s.pcs, t, next))
  }

  /** free_req under the global lock: off the list, count down, and maybe the duty to destroy. */
  lemma StepUnlink(s: State, t: Tid, r: ReqId, next: Option<ReqId>)
    requires Inv(s) && t in s.pcs && s.pcs[t] == Unlinking(r, next) && r in s.reqs
    ensures Inv(Unlinked(s, t, r, next))
  {
    hide Without, LiveInv, CountInv, LeakInv, ListInv, RoleInv, LockInv, QueueInv;
    QuietFacts(s, t);
    WithoutFacts(s.list, r);
    HolderCounts(s, t, r);
    UnlinkFacts(s, t, r, next);
    var s' := Unlinked(s, t, r, next);
    UnlinkKeeps(s, s', t, r, next);
  }

  /** What a replying thread stands for: a count on `r`, if `has`, and one on `next`. */
  ghost predicate StandsFor(pcs: map<Tid, Pc>, t: Tid, r: ReqId, has: bool, destroys: bool, next: Option<ReqId>) {
    forall q: ReqId ::
      && (HoldsAt(pcs, t, q) <==> (has && q == r) || next == Some(q))
      && (RepliesAt(pcs, t, q) <==> (has && q == r) || next == Some(q))
      && (Destroys(pcs, t, q) <==> destroys && q == r)
      && !LockAt(pcs, t, q) && !OwnsAt(pcs, t, q)
  }

  lemma UnlinkFacts(s: State, t: Tid, r: ReqId, next: Option<ReqId>)
    requires t in s.pcs && s.pcs[t] == Unlinking(r, next) && r in s.reqs && next != Some(r)
    ensures var s' := Unlinked(s, t, r, next);
            && OnlyMoved(s.pcs, s'.pcs, t) && RoleAt(s', t)
            && StandsFor(s.pcs, t, r, true, false, next)
            && StandsFor(s'.pcs, t, r, false, s.reqs[r].ctr == 1, next)
  {
    hide Without;
  }

  lemma UnlinkKeeps(s: State, s': State, t: Tid, r: ReqId, next: Option<ReqId>)
    requires Inv(s) && r in s.reqs && s.reqs[r].ctr >= 1 && r !in s.interrupts && next != Some(r)
    requires s'.reqs == s.reqs[r := s.reqs[r].(ctr := s.reqs[r].ctr - 1)] && s'.dead == s.dead
    requires s'.interrupts == s.interrupts && forall q :: q in s'.list <==> q in s.list && q != r
    requires OnlyMoved(s.pcs, s'.pcs, t) && Distinct(s'.list) && RoleAt(s', t)
    requires StandsFor(s.pcs, t, r, true, false, next) && StandsFor(s'.pcs, t, r, false, s.reqs[r].ctr == 1, next)
    ensures LiveInv(s') && CountInv(s') && LeakInv(s') && ListInv(s') && RoleInv(s') && LockInv(s') && QueueInv(s')
  {
    hide LiveInv, CountInv, LeakInv, ListInv, RoleInv, LockInv, QueueInv, ToldInv;
    hide OnlyMoved, HoldsAt, RepliesAt, Destroys, LockAt, OwnsAt, RoleAt, Distinct;
    QuietFacts(s, t);
    assert HoldsAt(s.pcs, t, r);
    OwnedElsewhere(s, t, r);
    KeepLive(s, s', t);
    KeepCount(s, s', t);
    KeepLeak(s, s', t);
    KeepList(s, s', t);
    KeepRole(s, s', t);
    KeepLock(s, s', t);
    KeepQueue(s, s');
  }

  /** A held request has a count, and does not wait in the queue. */
  lemma HolderCounts(s: State, t: Tid, r: ReqId)
    requires Inv(s) && r in s.reqs && HoldsAt(s.pcs, t, r)
    ensures s.reqs[r].ctr >= 1 && r !in s.interrupts
  {
    hide LiveInv, LeakInv, ListInv, LockInv, QueueInv, ToldInv, Holds;
    assert t in Holders(s.pcs, r);
    assert |Holders(s.pcs, r)| >= 1 by { assert Holders(s.pcs, r) != {}; }
  }

  lemma OwnedElsewhere(s: State, t: Tid, r: ReqId)
    requires Inv(s) && r in s.reqs && HoldsAt(s.pcs, t, r)
    ensures forall u: Tid | u != t :: !OwnsAt(s.pcs, u, r)
  {
    forall u: Tid | u != t
      ensures !OwnsAt(s.pcs, u, r)
    {
      if OwnsAt(s.pcs, u, r) {
        assert HoldsAt(s.pcs, u, r);
        OnlyHolder(s, u, r);
      }
    }
  }

  /** A request answered at once: allocated, and straight into free_req. */
  lemma StepReject(s: State, s': State, t: Tid, r: ReqId, unique: nat)
    requires Inv(s) && t !in s.pcs && IsFresh(s, r)
    requires s' == s.(reqs := s.reqs[r := Fresh(unique, 0)], pcs := s.pcs[t := Clearing(r, None)])
    ensures Inv(s')
  {
    hide LiveInv, CountInv, LeakInv, ListInv, RoleInv, LockInv, QueueInv;
    QuietFacts(s, t);
    NoHolders(s, r);
    assert StandsFor(s.pcs, t, r, false, false, None);
    assert StandsFor(s'.pcs, t, r, true, false, None);
    NewReplier(s, s', t, r);
    KeepQueue(s, s');
  }

  /** Thread `t`, idle before, becomes the replier of the new request `r`. */
  lemma NewReplier(s: State, s': State, t: Tid, r: ReqId)
    requires Inv(s) && r !in s.reqs && r !in s.interrupts && r !in s.list
    requires r in s'.reqs && s'.reqs == s.reqs[r := s'.reqs[r]] && s'.reqs[r].ctr == 1 && s'.reqs[r].lock == None
    requires s'.reqs.Keys !! s'.dead && s'.interrupts == s.interrupts && Distinct(s'.list)
    requires forall q :: q in s'.list ==> q in s.list || q == r
    requires OnlyMoved(s.pcs, s'.pcs, t) && RoleAt(s', t)
    requires forall u: Tid :: !HoldsAt(s.pcs, u, r)
    requires StandsFor(s.pcs, t, r, false, false, None) && StandsFor(s'.pcs, t, r, true, false, None)
    ensures LiveInv(s') && CountInv(s') && LeakInv(s') && ListInv(s') && RoleInv(s') && LockInv(s')
  {
    hide LiveInv, CountInv, LeakInv, ListInv, RoleInv, LockInv, QueueInv, ToldInv;
    hide OnlyMoved, HoldsAt, RepliesAt, Destroys, LockAt, OwnsAt, RoleAt, Distinct;
    QuietFacts(s, t);
    RepliesHold(s, r);
    KeepLive(s, s', t);
    KeepCount(s, s', t);
    KeepLeak(s, s', t);
    KeepList(s, s', t);
    KeepRole(s, s', t);
    KeepLock(s, s', t);
  }

  lemma RepliesHold(s: State, r: ReqId)
    requires forall u: Tid :: !HoldsAt(s.pcs, u, r)
    ensures forall u: Tid :: !RepliesAt(s.pcs, u, r) && !OwnsAt(s.pcs, u, r)
  {
    assert forall u: Tid | RepliesAt(s.pcs, u, r) || OwnsAt(s.pcs, u, r) :: HoldsAt(s.pcs, u, r);
  }

  /** A new request while nothing is queued: in flight, with its handler running. */
  lemma StepDispatchPlain(s: State, s': State, t: Tid, r: ReqId, unique: nat)
    requires Inv(s) && t !in s.pcs && IsFresh(s, r) && s.interrupts == []
    requires s' == s.(reqs := s.reqs[r := Fresh(unique, 0)], list := s.list + [r], pcs := s.pcs[t := Running(r)])
    ensures Inv(s')
  {
    hide LiveInv, CountInv, LeakInv, ListInv, RoleInv, LockInv;
    QuietFacts(s, t);
    NoHolders(s, r);
    DistinctSnoc(s.list, r);
    assert StandsFor(s.pcs, t, r, false, false, None);
    assert StandsFor(s'.pcs, t, r, true, false, None);
    NewReplier(s, s', t, r);
  }

  /** A new request while others' interrupts wait: the oldest is bounced by this thread first. */
  lemma StepDispatchBounce(s: State, s': State, t: Tid, r: ReqId, unique: nat)
    requires Inv(s) && t !in s.pcs && IsFresh(s, r) && s.interrupts != []
    requires forall i | i in s.interrupts :: i in s.reqs && s.reqs[i].target != unique
    requires s' == s.(reqs := s.reqs[r := Fresh(unique, 0)], interrupts := s.interrupts[1..], list := s.list + [r],
                      pcs := s.pcs[t := Clearing(s.interrupts[0], Some(r))])
    ensures Inv(s')
  {
    hide LiveInv, CountInv, LeakInv, ListInv, RoleInv, LockInv, QueueInv, ToldInv, Distinct, StandsFor;
    QuietFacts(s, t);
    NoHolders(s, r);
    DistinctSnoc(s.list, r);
    TailFacts(s.interrupts);
    var i := s.interrupts[0];
    Unheld(s, i);
    NowClearing(s.pcs, t, i, r);
    BounceKeeps(s, s', t, r, i);
    BounceQueue(s, s', r, unique, i);
  }

  lemma NowClearing(pcs: map<Tid, Pc>, t: Tid, i: ReqId, r: ReqId)
    requires t !in pcs
    ensures StandsFor(pcs, t, i, false, false, None) && StandsFor(pcs[t := Clearing(i, Some(r))], t, i, true, false, Some(r))
  {
  }

  lemma BounceQueue(s: State, s': State, r: ReqId, unique: nat, i: ReqId)
    requires QueueInv(s) && ToldInv(s) && r !in s.interrupts && r !in s.list
    requires forall j | j in s.interrupts :: j in s.reqs && s.reqs[j].target != unique
    requires s'.reqs == s.reqs[r := Fresh(unique, 0)] && s'.list == s.list + [r]
    requires forall q :: q in s'.interrupts <==> q in s.interrupts && q != i
    ensures QueueInv(s') && ToldInv(s')
  {
  }

  lemma TailFacts(s: seq<ReqId>)
    requires Distinct(s) && s != []
    ensures Distinct(s[1..]) && s[0] in s
    ensures forall q :: q in s[1..] <==> q in s && q != s[0]
  {
    assert forall k | 0 <= k < |s[1..]| :: s[1..][k] == s[k + 1];
    assert forall q :: q in s <==> q == s[0] || q in s[1..];
  }

  lemma BounceKeeps(s: State, s': State, t: Tid, r: ReqId, i: ReqId)
    requires Inv(s) && r !in s.reqs && r !in s.interrupts && r !in s.list && i in s.interrupts && i in s.reqs && i != r
    requires r in s'.reqs && s'.reqs == s.reqs[r := s'.reqs[r]] && s'.reqs[r].ctr == 1 && s'.reqs[r].lock == None
    requires s'.reqs.Keys !! s'.dead && Distinct(s'.interrupts) && Distinct(s'.list)
    requires forall q :: q in s'.interrupts <==> q in s.interrupts && q != i
    requires forall q :: q in s'.list <==> q in s.list || q == r
    requires OnlyMoved(s.pcs, s'.pcs, t) && RoleAt(s', t)
    requires forall u: Tid :: !HoldsAt(s.pcs, u, r) && !HoldsAt(s.pcs, u, i)
    requires StandsFor(s.pcs, t, i, false, false, None) && StandsFor(s'.pcs, t, i, true, false, Some(r))
    ensures LiveInv(s') && CountInv(s') && LeakInv(s') && ListInv(s') && RoleInv(s') && LockInv(s')
  {
    hide LiveInv, CountInv, LeakInv, ListInv, RoleInv, LockInv, QueueInv, ToldInv;
    hide OnlyMoved, HoldsAt, RepliesAt, Destroys, LockAt, OwnsAt, RoleAt, Distinct;
    QuietFacts(s, t);
    RepliesHold(s, r);
    RepliesHold(s, i);
    KeepLive(s, s', t);
    KeepCount(s, s', t);
    KeepLeak(s, s', t);
    KeepList(s, s', t);
    KeepRole(s, s', t);
    KeepLock(s, s', t);
  }

  /** A new request that was interrupted before it arrived: the waiting INTERRUPT is consumed. */
  lemma StepDispatchMatch(s: State, s': State, t: Tid, r: ReqId, unique: nat, i: ReqId)
    requires Inv(s) && t !in s.pcs && IsFresh(s, r) && i in s.interrupts && i in s.reqs && s.reqs[i].target == unique
    requires s' == s.(reqs := (s.reqs - {i})[r := Fresh(unique, 0).(interrupted := true)], dead := s.dead + {i},
                      interrupts := Without(s.interrupts, i), list := s.list + [r], pcs := s.pcs[t := Running(r)])
    ensures Inv(s')
  {
    hide LiveInv, CountInv, LeakInv, ListInv, RoleInv, LockInv, QueueInv, ToldInv, Without, Distinct, StandsFor;
    QuietFacts(s, t);
    NoHolders(s, r);
    DistinctSnoc(s.list, r);
    WithoutFacts(s.interrupts, i);
    Unheld(s, i);
    NowRunning(s.pcs, t, r);
    MatchKeeps(s, s', t, r, i);
    MatchQueue(s, s', r, unique, i);
  }

  lemma NowRunning(pcs: map<Tid, Pc>, t: Tid, r: ReqId)
    requires t !in pcs
    ensures StandsFor(pcs, t, r, false, false, None) && StandsFor(pcs[t := Running(r)], t, r, true, false, None)
  {
  }

  lemma MatchQueue(s: State, s': State, r: ReqId, unique: nat, i: ReqId)
    requires QueueInv(s) && ToldInv(s) && i in s.interrupts && i in s.reqs && s.reqs[i].target == unique && r !in s.interrupts && r !in s.list
    requires s'.reqs == (s.reqs - {i})[r := Fresh(unique, 0).(interrupted := true)] && s'.list == s.list + [r]
    requires forall q :: q in s'.interrupts <==> q in s.interrupts && q != i
    ensures QueueInv(s') && ToldInv(s')
  {
  }

  lemma MatchKeeps(s: State, s': State, t: Tid, r: ReqId, i: ReqId)
    requires Inv(s) && r !in s.reqs && r !in s.interrupts && r !in s.list && i in s.interrupts && i in s.reqs && i != r
    requires r in s'.reqs && s'.reqs == (s.reqs - {i})[r := s'.reqs[r]] && s'.reqs[r].ctr == 1 && s'.reqs[r].lock == None
    requires s'.reqs.Keys !! s'.dead && Distinct(s'.interrupts) && Distinct(s'.list)
    requires forall q :: q in s'.interrupts <==> q in s.interrupts && q != i
    requires forall q :: q in s'.list <==> q in s.list || q == r
    requires OnlyMoved(s.pcs, s'.pcs, t) && RoleAt(s', t)
    requires forall u: Tid :: !HoldsAt(s.pcs, u, r) && !HoldsAt(s.pcs, u, i) && !Destroys(s.pcs, u, i)
    requires StandsFor(s.pcs, t, r, false, false, None) && StandsFor(s'.pcs, t, r, true, false, None)
    ensures LiveInv(s') && CountInv(s') && LeakInv(s') && ListInv(s') && RoleInv(s') && LockInv(s')
  {
    hide LiveInv, CountInv, LeakInv, ListInv, RoleInv, LockInv, QueueInv, ToldInv;
    hide OnlyMoved, HoldsAt, RepliesAt, Destroys, LockAt, OwnsAt, RoleAt, Distinct;
    QuietFacts(s, t);
    RepliesHold(s, r);
    RepliesHold(s, i);
    KeepLive(s, s', t);
    KeepCount(s, s', t);
    KeepLeak(s, s', t);
    KeepList(s, s', t);
    KeepRole(s, s', t);
    KeepLock(s, s', t);
  }

  /** free_req destroys the request after its count reached zero. */
  lemma StepDestroy(s: State, s': State, t: Tid, r: ReqId, next: Option<ReqId>)
    requires Inv(s) && t in s.pcs && s.pcs[t] == Destroying(r, next) && r in s.reqs
    requires s' == s.(reqs := s.reqs - {r}, dead := s.dead + {r}, pcs := Continued(s.pcs, t, next))
    ensures Inv(s')
  {
    hide LiveInv, CountInv, LeakInv, ListInv, RoleInv, LockInv, QueueInv;
    QuietFacts(s, t);
    DestroyFacts(s, t, r);
    assert StandsFor(s.pcs, t, r, false, true, next);
    assert StandsFor(s'.pcs, t, r, false, false, next);
    DestroyKeeps(s, s', t, r, next);
  }

  lemma DestroyFacts(s: State, t: Tid, r: ReqId)
    requires Inv(s) && Destroys(s.pcs, t, r) && r in s.reqs
    ensures s.reqs[r].ctr == 0 && r !in s.list && r !in s.interrupts
    ensures Private(s, t, r)
  {
    hide LiveInv, LockInv, QueueInv, ToldInv, Holds;
    Unheld(s, r);
    if r in s.list {
      var u :| u in s.pcs && Replies(s.pcs[u], r);
      ReplierHolds(s.pcs, u, r);
    }
  }

  lemma ReplierHolds(pcs: map<Tid, Pc>, u: Tid, r: ReqId)
    requires u in pcs && Replies(pcs[u], r)
    ensures HoldsAt(pcs, u, r)
  {
  }

  lemma DestroyKeeps(s: State, s': State, t: Tid, r: ReqId, next: Option<ReqId>)
    requires Inv(s) && r in s.reqs && s.reqs[r].ctr == 0 && r !in s.list && r !in s.interrupts && next != Some(r)
    requires s'.reqs == s.reqs - {r} && s'.dead == s.dead + {r} && s'.list == s.list && s'.interrupts == s.interrupts
    requires OnlyMoved(s.pcs, s'.pcs, t) && RoleAt(s', t) && Private(s, t, r)
    requires StandsFor(s.pcs, t, r, false, true, next) && StandsFor(s'.pcs, t, r, false, false, next)
    ensures LiveInv(s') && CountInv(s') && LeakInv(s') && ListInv(s') && RoleInv(s') && LockInv(s') && QueueInv(s')
  {
    hide LiveInv, CountInv, LeakInv, ListInv, RoleInv, LockInv, QueueInv, ToldInv;
    hide OnlyMoved, HoldsAt, RepliesAt, Destroys, LockAt, OwnsAt, RoleAt, Distinct;
    QuietFacts(s, t);
    KeepLive(s, s', t);
    KeepCount(s, s', t);
    KeepLeak(s, s', t);
    KeepList(s, s', t);
    KeepRole(s, s', t);
    KeepLock(s, s', t);
    KeepQueue(s, s');
  }

  /** What an interrupter without the mutex stands for: its own INTERRUPT and the request it found. */
  ghost predicate Pursues(pcs: map<Tid, Pc>, t: Tid, i: ReqId, r: ReqId, on: bool) {
    forall q: ReqId ::
      && (HoldsAt(pcs, t, q) <==> on && (q == i || q == r))
      && (OwnsAt(pcs, t, q) <==> on && q == i)
      && !RepliesAt(pcs, t, q) && !Destroys(pcs, t, q) && !LockAt(pcs, t, q)
  }

  /** find_interrupted finds its target in flight, takes a count on it and lets go of the global lock. */
  lemma StepInterruptFound(s: State, s': State, t: Tid, i: ReqId, unique: nat, target: nat, r: ReqId)
    requires Inv(s) && t !in s.pcs && IsFresh(s, i) && r in s.list && r in s.reqs
    requires s' == s.(reqs := s.reqs[r := s.reqs[r].(ctr := s.reqs[r].ctr + 1)][i := Fresh(unique, target)],
                      pcs := s.pcs[t := Found(i, r)])
    ensures Inv(s')
  {
    hide LiveInv, CountInv, LeakInv, ListInv, RoleInv, LockInv, QueueInv;
    QuietFacts(s, t);
    NoHolders(s, i);
    InFlight(s, r);
    assert Pursues(s.pcs, t, i, r, false);
    assert Pursues(s'.pcs, t, i, r, true);
    FoundKeeps(s, s', t, i, r);
  }

  /** A request in flight has a count, and is nobody's INTERRUPT. */
  lemma InFlight(s: State, r: ReqId)
    requires Inv(s) && r in s.list
    ensures r in s.reqs && s.reqs[r].ctr >= 1 && r !in s.interrupts
    ensures forall u: Tid :: !OwnsAt(s.pcs, u, r)
  {
    hide CountInv, LeakInv, LockInv, QueueInv, ToldInv;
    var u :| u in s.pcs && Replies(s.pcs[u], r);
    assert HoldsAt(s.pcs, u, r);
    HolderCounts(s, u, r);
  }

  lemma FoundKeeps(s: State, s': State, t: Tid, i: ReqId, r: ReqId)
    requires Inv(s) && i !in s.reqs && i !in s.interrupts && i !in s.list && r in s.list && r in s.reqs && i != r
    requires s.reqs[r].ctr >= 1 && r !in s.interrupts && forall u: Tid :: !OwnsAt(s.pcs, u, r)
    requires i in s'.reqs && s'.reqs == s.reqs[r := s.reqs[r].(ctr := s.reqs[r].ctr + 1)][i := s'.reqs[i]]
    requires s'.reqs[i].ctr == 1 && s'.reqs[i].lock == None
    requires s'.reqs.Keys !! s'.dead && s'.list == s.list && s'.interrupts == s.interrupts
    requires OnlyMoved(s.pcs, s'.pcs, t) && RoleAt(s', t)
    requires forall u: Tid :: !HoldsAt(s.pcs, u, i)
    requires Pursues(s.pcs, t, i, r, false) && Pursues(s'.pcs, t, i, r, true)
    ensures LiveInv(s') && CountInv(s') && LeakInv(s') && ListInv(s') && RoleInv(s') && LockInv(s') && QueueInv(s')
  {
    hide LiveInv, CountInv, LeakInv, ListInv, RoleInv, LockInv, QueueInv, ToldInv;
    hide OnlyMoved, HoldsAt, RepliesAt, Destroys, LockAt, OwnsAt, RoleAt, Distinct;
    QuietFacts(s, t);
    RepliesHold(s, i);
    KeepLive(s, s', t);
    KeepCount(s, s', t);
    KeepLeak(s, s', t);
    KeepList(s, s', t);
    KeepRole(s, s', t);
    KeepLock(s, s', t);
    KeepQueue(s, s');
  }

  /** The same target is already waiting: the new INTERRUPT is dropped on the spot. */
  lemma StepInterruptDup(s: State, s': State, i: ReqId)
    requires Inv(s) && IsFresh(s, i) && s' == s.(dead := s.dead + {i})
    ensures Inv(s')
  {
    hide LiveInv, CountInv, LeakInv, ListInv, RoleInv, LockInv, QueueInv, ToldInv;
    DeadLive(s, s', i);
    DeadCounts(s, s');
    DeadLists(s, s');
  }

  lemma DeadLive(s: State, s': State, i: ReqId)
    requires LiveInv(s) && IsFresh(s, i) && s' == s.(dead := s.dead + {i})
    ensures LiveInv(s')
  {
  }

  lemma DeadCounts(s: State, s': State)
    requires CountInv(s) && LeakInv(s) && LockInv(s) && ToldInv(s) && s' == s.(dead := s'.dead)
    ensures CountInv(s') && LeakInv(s') && LockInv(s') && ToldInv(s')
  {
  }

  lemma DeadLists(s: State, s': State)
    requires ListInv(s) && RoleInv(s) && QueueInv(s) && s' == s.(dead := s'.dead)
    ensures ListInv(s') && RoleInv(s') && QueueInv(s')
  {
  }

  /** The target has not arrived yet: the INTERRUPT waits for it. */
  lemma StepInterruptQueue(s: State, s': State, t: Tid, i: ReqId, unique: nat, target: nat)
    requires Inv(s) && t !in s.pcs && IsFresh(s, i)
    requires forall r | r in s.list :: r in s.reqs && s.reqs[r].unique != target
    requires forall j | j in s.interrupts :: j in s.reqs && s.reqs[j].target != target
    requires s' == s.(reqs := s.reqs[i := Fresh(unique, target)], interrupts := s.interrupts + [i])
    ensures Inv(s')
  {
    hide LiveInv, CountInv, LeakInv, ListInv, RoleInv, LockInv;
    QuietFacts(s, t);
    NoHolders(s, i);
    DistinctSnoc(s.interrupts, i);
    assert Pursues(s.pcs, t, i, i, false) && OnlyMoved(s.pcs, s'.pcs, t) && RoleAt(s', t);
    QueueKeeps(s, s', t, i);
    assert QueueInv(s');
  }

  lemma QueueKeeps(s: State, s': State, t: Tid, i: ReqId)
    requires Inv(s) && i !in s.reqs && i !in s.interrupts && i !in s.list
    requires i in s'.reqs && s'.reqs == s.reqs[i := s'.reqs[i]] && s'.reqs[i].ctr == 1 && s'.reqs[i].lock == None
    requires s'.reqs.Keys !! s'.dead && s'.list == s.list && Distinct(s'.interrupts) && s'.pcs == s.pcs
    requires forall q :: q in s'.interrupts <==> q in s.interrupts || q == i
    requires OnlyMoved(s.pcs, s'.pcs, t) && RoleAt(s', t) && Pursues(s.pcs, t, i, i, false)
    requires forall u: Tid :: !HoldsAt(s.pcs, u, i)
    ensures LiveInv(s') && CountInv(s') && LeakInv(s') && ListInv(s') && RoleInv(s') && LockInv(s')
  {
    hide LiveInv, CountInv, LeakInv, ListInv, RoleInv, LockInv, QueueInv, ToldInv;
    hide OnlyMoved, HoldsAt, RepliesAt, Destroys, LockAt, OwnsAt, RoleAt, Distinct;
    QuietFacts(s, t);
    KeepLive(s, s', t);
    KeepCount(s, s', t);
    KeepLeak(s, s', t);
    KeepList(s, s', t);
    KeepRole(s, s', t);
    KeepLock(s, s', t);
  }

  /** The interrupter gives its count back, and destroys the request if it was the last. */
  lemma StepLeave(s: State, s': State, t: Tid, i: ReqId, r: ReqId)
    requires Inv(s) && t in s.pcs && s.pcs[t] == Leaving(i, r) && i in s.reqs && r in s.reqs
    requires s' == if s.reqs[r].ctr == 1
                   then s.(reqs := s.reqs - {i, r}, dead := s.dead + {i, r}, pcs := s.pcs - {t})
                   else s.(reqs := s.reqs[r := s.reqs[r].(ctr := s.reqs[r].ctr - 1)] - {i}, dead := s.dead + {i}, pcs := s.pcs - {t})
    ensures Inv(s')
  {
    hide LiveInv, CountInv, LeakInv, ListInv, RoleInv, LockInv, QueueInv;
    QuietFacts(s, t);
    HolderCounts(s, t, r);
    OnlyHolder(s, t, i);
    OwnedElsewhere(s, t, r);
    assert Pursues(s.pcs, t, i, r, true);
    assert Pursues(s'.pcs, t, i, r, false);
    if s.reqs[r].ctr == 1 {
      OnlyHolder(s, t, r);
      LastNotInFlight(s, t, r);
    }
    LeaveKeeps(s, s', t, i, r);
  }

  /** If an interrupter holds the last count, the replier is done: the request is off the list. */
  lemma LastNotInFlight(s: State, t: Tid, r: ReqId)
    requires Inv(s) && Private(s, t, r) && !RepliesAt(s.pcs, t, r)
    ensures r !in s.list
  {
    hide LiveInv, CountInv, LeakInv, RoleInv, LockInv, QueueInv, ToldInv, Holds;
    if r in s.list {
      var u :| u in s.pcs && Replies(s.pcs[u], r);
      ReplierHolds(s.pcs, u, r);
    }
  }

  lemma LeaveKeeps(s: State, s': State, t: Tid, i: ReqId, r: ReqId)
    requires Inv(s) && i in s.reqs && r in s.reqs && i != r && i !in s.list && i !in s.interrupts && r !in s.interrupts
    requires s.reqs[r].ctr >= 1 && s.reqs[i].ctr == 1
    requires forall q :: q in s'.reqs <==> q in s.reqs && q != i && (q != r || s.reqs[r].ctr != 1)
    requires forall q | q in s'.reqs :: s'.reqs[q] == if q == r then s.reqs[r].(ctr := s.reqs[r].ctr - 1) else s.reqs[q]
    requires s'.reqs.Keys !! s'.dead && s'.list == s.list && s'.interrupts == s.interrupts
    requires OnlyMoved(s.pcs, s'.pcs, t) && RoleAt(s', t) && Private(s, t, i)
    requires s.reqs[r].ctr == 1 ==> Private(s, t, r) && r !in s.list
    requires forall u: Tid | u != t :: !OwnsAt(s.pcs, u, r)
    requires Pursues(s.pcs, t, i, r, true) && Pursues(s'.pcs, t, i, r, false)
    ensures LiveInv(s') && CountInv(s') && LeakInv(s') && ListInv(s') && RoleInv(s') && LockInv(s') && QueueInv(s')
  {
    hide LiveInv, CountInv, LeakInv, ListInv, RoleInv, LockInv, QueueInv, ToldInv;
    hide OnlyMoved, HoldsAt, RepliesAt, Destroys, LockAt, OwnsAt, RoleAt, Distinct;
    QuietFacts(s, t);
    KeepLive(s, s', t);
    KeepCount(s, s', t);
    KeepLeak(s, s', t);
    KeepList(s, s', t);
    KeepRole(s, s', t);
    KeepLock(s, s', t);
    KeepQueue(s, s');
  }

  // ----- every step, every run

  lemma StepGo(s: State, t: Tid)
    requires Inv(s) && Enabled(s, Go(t)) && Touches(s, Go(t)) <= s.reqs.Keys
    ensures Inv(Do(s, Go(t)))
  {
    hide Inv, Without;
    match s.pcs[t]
    case Clearing(r, next) => StepClear(s, t, r, next);
    case Unlinking(r, next) => StepUnlink(s, t, r, next);
    case Destroying(r, next) => StepDestroy(s, Do(s, Go(t)), t, r, next);
    case Found(i, r) => StepFound(s, t, i, r);
    case Locked(i, r) => StepLocked(s, t, i, r);
    case Marked(i, r) => StepMarked(s, t, i, r);
    case Leaving(i, r) => StepLeave(s, Do(s, Go(t)), t, i, r);
  }

  lemma StepDispatch(s: State, t: Tid, r: ReqId, unique: nat)
    requires Inv(s) && Enabled(s, Dispatch(t, r, unique)) && Touches(s, Dispatch(t, r, unique)) <= s.reqs.Keys
    ensures Inv(Do(s, Dispatch(t, r, unique)))
  {
    hide Inv, Without;
    var s' := Do(s, Dispatch(t, r, unique));
    var m := FindTarget(s.reqs, s.interrupts, unique);
    if m.Some? {
      StepDispatchMatch(s, s', t, r, unique, m.value);
    } else if s.interrupts != [] {
      StepDispatchBounce(s, s', t, r, unique);
    } else {
      StepDispatchPlain(s, s', t, r, unique);
    }
  }

  lemma StepInterrupt(s: State, t: Tid, i: ReqId, unique: nat, target: nat)
    requires Inv(s) && Enabled(s, Interrupt(t, i, unique, target))
    requires Touches(s, Interrupt(t, i, unique, target)) <= s.reqs.Keys
    ensures Inv(Do(s, Interrupt(t, i, unique, target)))
  {
    hide Inv;
    var s' := Do(s, Interrupt(t, i, unique, target));
    var f := FindUnique(s.reqs, s.list, target);
    if f.Some? {
      StepInterruptFound(s, s', t, i, unique, target, f.value);
    } else if FindTarget(s.reqs, s.interrupts, target).Some? {
      StepInterruptDup(s, s', i);
    } else {
      StepInterruptQueue(s, s', t, i, unique, target);
    }
  }

  /** Every step that can happen touches live requests only, and keeps the invariant. */
  lemma StepKeepsInv(s: State, a: Action)
    requires Inv(s) && Enabled(s, a)
    ensures Touches(s, a) <= s.reqs.Keys
    ensures Inv(Do(s, a))
  {
    hide Inv, Do;
    TouchesLive(s, a);
    match a
    case Reject(t, r, unique) => StepRejectDo(s, t, r, unique);
    case Dispatch(t, r, unique) => StepDispatch(s, t, r, unique);
    case Interrupt(t, i, unique, target) => StepInterrupt(s, t, i, unique, target);
    case SetFunc(t, on) => StepSetFunc(s, t, on);
    case Reply(t) => StepReply(s, t);
    case Go(t) => StepGo(s, t);
  }

  lemma StepRejectDo(s: State, t: Tid, r: ReqId, unique: nat)
    requires Inv(s) && Enabled(s, Reject(t, r, unique))
    ensures Inv(Do(s, Reject(t, r, unique)))
  {
    hide Inv;
    StepReject(s, Do(s, Reject(t, r, unique)), t, r, unique);
  }

  /** A run of any threads, any requests and any interrupts, from the empty session. */
  ghost predicate IsRun(states: seq<State>, actions: seq<Action>) {
    && |states| == |actions| + 1 && states[0] == Initial()
    && forall k | 0 <= k < |actions| :: Follows(states[k], actions[k], states[k + 1])
  }

  ghost predicate Follows(s: State, a: Action, s': State) {
    Enabled(s, a) && Touches(s, a) <= s.reqs.Keys && s' == Do(s, a)
  }

  lemma InitialInv()
    ensures Inv(Initial())
  {
    assert forall r | r in Initial().reqs :: false;
  }

  /**
   In every state of every run: nobody is about to touch a freed request, counts are exact,
   no INTERRUPT waits beside its request or twice, and no interrupt function is missed.
   */
  lemma {:induction false} RunSafe(states: seq<State>, actions: seq<Action>, k: nat)
    requires IsRun(states, actions) && k < |states|
    ensures Inv(states[k])
    ensures forall a | Enabled(states[k], a) :: Touches(states[k], a) <= states[k].reqs.Keys
  {
    hide Inv, Do, Touches, Enabled;
    if k == 0 {
      InitialInv();
    } else {
      RunSafe(states, actions, k - 1);
      assert Follows(states[k - 1], actions[k - 1], states[k - 1 + 1]);
      StepKeepsInv(states[k - 1], actions[k - 1]);
    }
    forall a | Enabled(states[k], a)
      ensures Touches(states[k], a) <= states[k].reqs.Keys
    {
      TouchesLive(states[k], a);
    }
  }

  lemma DeadGrows(s: State, a: Action)
    requires Enabled(s, a) && Touches(s, a) <= s.reqs.Keys
    ensures s.dead <= Do(s, a).dead
    ensures forall r | r in s.reqs && r !in Do(s, a).reqs :: r in Do(s, a).dead
  {
    hide Without;
  }

  /** A request is freed at most once: from then on it is dead, and never live or touched again. */
  lemma {:induction false} FreedOnce(states: seq<State>, actions: seq<Action>, j: nat, k: nat, r: ReqId)
    requires IsRun(states, actions) && j <= k < |states| && r in states[j].dead
    ensures r in states[k].dead && r !in states[k].reqs
    ensures forall a | Enabled(states[k], a) :: r !in Touches(states[k], a)
    decreases k
  {
    hide Inv, Do, Touches, Enabled;
    RunSafe(states, actions, k);
    if j < k {
      FreedOnce(states, actions, j, k - 1, r);
      assert Follows(states[k - 1], actions[k - 1], states[k - 1 + 1]);
      DeadGrows(states[k - 1], actions[k - 1]);
    }
    assert states[k].reqs.Keys !! states[k].dead by { QuietFacts(states[k], 0); }
  }

  /** When every thread is idle, only waiting INTERRUPTs are still allocated: nothing leaks. */
  lemma NothingLeaks(states: seq<State>, actions: seq<Action>, k: nat)
    requires IsRun(states, actions) && k < |states| && states[k].pcs == map[]
    ensures states[k].reqs.Keys == Elements(states[k].interrupts)
    ensures states[k].list == []
  {
    RunSafe(states, actions, k);
    IdleFacts(states[k]);
  }

  lemma FirstIn(s: seq<ReqId>)
    ensures s == [] || s[0] in s
  {
  }

  lemma IdleFacts(s: State)
    requires Inv(s) && s.pcs == map[]
    ensures s.reqs.Keys == Elements(s.interrupts) && s.list == []
  {
    hide LockInv, QueueInv, ToldInv, RoleInv;
    forall r | r in s.reqs
      ensures r in s.interrupts
    {
      assert Holders(s.pcs, r) == {};
    }
    FirstIn(s.list);
  }
}
