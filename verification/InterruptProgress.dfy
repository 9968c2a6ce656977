/**
 Progress of the request and interrupt protocol: no state reached is a deadlock, replies and
 internal steps cannot go on for ever, and in any order they bring the session to rest.
 */
module InterruptProgress {
  import opened Sequences
  import opened InterruptProtocol

  // ----- runs of enabled actions

  /** Each action may happen when it is its turn. */
  ghost predicate MayRun(s: State, actions: seq<Action>)
    requires Inv(s)
    decreases |actions|
  {
    actions == [] ||
    (Enabled(s, actions[0]) && (StepKeepsInv(s, actions[0]); MayRun(Do(s, actions[0]), actions[1..])))
  }

  ghost function RunOf(s: State, actions: seq<Action>): (s': State)
    requires Inv(s) && MayRun(s, actions)
    ensures Inv(s')
    decreases |actions|
  {
    if actions == [] then s
    else
      StepKeepsInv(s, actions[0]);
      RunOf(Do(s, actions[0]), actions[1..])
  }

  // ----- nobody waits for ever

  /** A step of a thread that is busy: the answer of a handler, or the next stretch of code. */
  predicate Moves(a: Action) {
    a.Reply? || a.Go?
  }

  /** The thread is at a request's mutex, which `u` holds. */
  ghost predicate WaitsFor(s: State, t: Tid, u: Tid) {
    && t in s.pcs && (s.pcs[t].Clearing? || s.pcs[t].Found?)
    && u in s.pcs && HasLock(s.pcs[u], s.pcs[t].r)
  }

  /** A busy thread can move, or it waits for a thread that can: the holder of a mutex waits for nobody. */
  lemma NeverStuck(s: State, t: Tid) returns (a: Action)
    requires Inv(s) && t in s.pcs
    ensures Moves(a) && Enabled(s, a)
    ensures a == Reply(t) || a == Go(t) || (a.Go? && WaitsFor(s, t, a.t))
  {
    hide LiveInv, CountInv, LeakInv, ListInv, RoleInv, QueueInv, ToldInv;
    var pc := s.pcs[t];
    if pc.Running? {
      a := Reply(t);
    } else if (pc.Clearing? || pc.Found?) && pc.r in s.reqs && s.reqs[pc.r].lock != None {
      var u := s.reqs[pc.r].lock.value;
      assert u in s.pcs && HasLock(s.pcs[u], pc.r);
      a := Go(u);
    } else {
      a := Go(t);
    }
  }

  /** No state of any run is a deadlock. */
  lemma NoDeadlock(states: seq<State>, actions: seq<Action>, k: nat)
    requires IsRun(states, actions) && k < |states| && states[k].pcs != map[]
    ensures exists a :: Moves(a) && Enabled(states[k], a)
  {
    hide Inv, Enabled, IsRun;
    RunSafe(states, actions, k);
    var t :| t in states[k].pcs;
    var a := NeverStuck(states[k], t);
  }

  /** The holder of a mutex gives it back within two steps of its own. */
  lemma Releases(s: State, u: Tid, r: ReqId)
    requires Inv(s) && u in s.pcs && HasLock(s.pcs[u], r)
    ensures Enabled(s, Go(u)) && Touches(s, Go(u)) <= s.reqs.Keys
    ensures var s1 := Do(s, Go(u));
            if s.pcs[u].Marked? then r in s1.reqs && s1.reqs[r].lock == None
            else u in s1.pcs && s1.pcs[u].Marked? && HasLock(s1.pcs[u], r)
  {
    hide Inv;
    StepKeepsInv(s, Go(u));
  }

  // ----- and nobody moves for ever

  /** The steps a thread has before it at most. */
  function Work(pc: Pc): (n: nat)
    ensures n > 0
  {
    match pc
    case Running(_) => 4
    case Clearing(_, next) => 3 + After(next)
    case Unlinking(_, next) => 2 + After(next)
    case Destroying(_, next) => 1 + After(next)
    case Found(_, _) => 4
    case Locked(_, _) => 3
    case Marked(_, _) => 2
    case Leaving(_, _) => 1
  }

  function After(next: Option<ReqId>): nat {
    if next.Some? then 4 else 0
  }

  ghost function Total(pcs: map<Tid, Pc>): nat
    decreases |pcs|
  {
    if pcs == map[] then 0
    else
      var t :| t in pcs;
      Work(pcs[t]) + Total(pcs - {t})
  }

  lemma {:induction false} TotalAt(pcs: map<Tid, Pc>, t: Tid)
    requires t in pcs
    ensures Total(pcs) == Work(pcs[t]) + Total(pcs - {t})
    decreases |pcs|
  {
    hide Work;
    var u :| u in pcs && Total(pcs) == Work(pcs[u]) + Total(pcs - {u});
    if u != t {
      TotalAt(pcs - {u}, t);
      TotalAt(pcs - {t}, u);
      assert pcs - {u} - {t} == pcs - {t} - {u};
    }
  }

  /** Only `t` has moved, and it has less before it, or is done. */
  lemma TotalLess(pcs: map<Tid, Pc>, pcs': map<Tid, Pc>, t: Tid)
    requires t in pcs && pcs' - {t} == pcs - {t}
    requires t in pcs' ==> Work(pcs'[t]) < Work(pcs[t])
    ensures Total(pcs') < Total(pcs)
  {
    hide Work, Total;
    TotalAt(pcs, t);
    if t in pcs' {
      TotalAt(pcs', t);
    } else {
      assert pcs' - {t} == pcs';
    }
  }

  /** Every move lowers what all the threads have before them. */
  lemma MoveLowers(s: State, a: Action)
    requires Inv(s) && Enabled(s, a) && Moves(a)
    ensures Touches(s, a) <= s.reqs.Keys && Total(Do(s, a).pcs) < Total(s.pcs)
  {
    hide Inv, Total, Without;
    StepKeepsInv(s, a);
    TotalLess(s.pcs, Do(s, a).pcs, a.t);
  }

  ghost predicate AllMove(actions: seq<Action>) {
    forall k | 0 <= k < |actions| :: Moves(actions[k])
  }

  /** However the moves are interleaved, there are no more of them than that; new requests aside, nothing goes on for ever. */
  lemma {:induction false} FewMoves(s: State, actions: seq<Action>)
    requires Inv(s) && MayRun(s, actions) && AllMove(actions)
    ensures |actions| + Total(RunOf(s, actions).pcs) <= Total(s.pcs)
    decreases |actions|
  {
    hide Inv, Total, Do, Enabled, Touches;
    if actions != [] {
      StepKeepsInv(s, actions[0]);
      MoveLowers(s, actions[0]);
      FewMoves(Do(s, actions[0]), actions[1..]);
    }
  }

  /** Moves that cannot be continued have brought the session to rest, with nothing live but waiting INTERRUPTs. */
  lemma RestInTheEnd(s: State, actions: seq<Action>)
    requires Inv(s) && MayRun(s, actions) && AllMove(actions)
    requires forall a | Moves(a) :: !Enabled(RunOf(s, actions), a)
    ensures var s' := RunOf(s, actions); s'.pcs == map[] && s'.reqs.Keys == Elements(s'.interrupts)
  {
    hide Inv, MayRun, Enabled;
    var s' := RunOf(s, actions);
    if s'.pcs != map[] {
      var t :| t in s'.pcs;
      var a := NeverStuck(s', t);
    }
    IdleFacts(s');
  }

  /** From every state some moves do that: the session can always come to rest. */
  lemma {:induction false} CanRest(s: State) returns (actions: seq<Action>)
    requires Inv(s)
    ensures MayRun(s, actions) && AllMove(actions) && RunOf(s, actions).pcs == map[]
    decreases Total(s.pcs)
  {
    hide Inv, Total, Do, Enabled, Touches;
    if s.pcs == map[] {
      actions := [];
    } else {
      var t :| t in s.pcs;
      var a := NeverStuck(s, t);
      StepKeepsInv(s, a);
      MoveLowers(s, a);
      var rest := CanRest(Do(s, a));
      actions := [a] + rest;
      assert actions[1..] == rest;
    }
  }
}
