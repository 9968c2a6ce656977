/**
 What the protocol is for: an INTERRUPT reaches the request it names, if that is in flight or
 comes while the INTERRUPT waits, and a request is told of nothing that was not sent.
 */
module InterruptDelivery {
  import opened Sequences
  import opened InterruptProtocol

  // ----- what a step leaves alone

  /** A request that a step leaves in memory keeps its names, and its flag once set. */
  ghost predicate Steady(s: State, s': State) {
    forall x | x in s.reqs && x in s'.reqs ::
      && s'.reqs[x].unique == s.reqs[x].unique && s'.reqs[x].target == s.reqs[x].target
      && (s.reqs[x].interrupted ==> s'.reqs[x].interrupted)
  }

  lemma GoSteady(s: State, t: Tid)
    requires Enabled(s, Go(t)) && Touches(s, Go(t)) <= s.reqs.Keys
    ensures Steady(s, DoGo(s, t))
  {
    hide Without;
  }

  lemma StepSteady(s: State, a: Action)
    requires Enabled(s, a) && Touches(s, a) <= s.reqs.Keys
    ensures Steady(s, Do(s, a))
  {
    hide Without, FindTarget, FindUnique, DoGo;
    if a.Go? { GoSteady(s, a.t); }
  }

  /** Only the thread of the action has moved. */
  lemma OthersStay(s: State, a: Action)
    requires Enabled(s, a) && Touches(s, a) <= s.reqs.Keys
    ensures OnlyMoved(s.pcs, Do(s, a).pcs, a.t)
  {
    hide Without, FindTarget, FindUnique;
  }

  // ----- the interrupter and its request

  /** The INTERRUPT of a thread names the request it works on, which is marked once the thread is past that. */
  ghost predicate Aimed(s: State, t: Tid) {
    t in s.pcs && Interrupting(s.pcs[t]) && s.pcs[t].i in s.reqs && s.pcs[t].r in s.reqs ==>
      && s.reqs[s.pcs[t].i].target == s.reqs[s.pcs[t].r].unique
      && (s.pcs[t].Marked? || s.pcs[t].Leaving? ==> s.reqs[s.pcs[t].r].interrupted)
  }

  /** Every interrupter is at the right request, and no function is called without an interrupt. */
  ghost predicate Arrival(s: State) {
    && (forall t | t in s.pcs :: Aimed(s, t))
    && (forall r | r in s.reqs && s.reqs[r].told :: s.reqs[r].interrupted)
  }

  lemma HeldLive(s: State, t: Tid)
    requires Inv(s) && t in s.pcs && Interrupting(s.pcs[t])
    ensures s.pcs[t].i in s.reqs && s.pcs[t].r in s.reqs && s.pcs[t].i != s.pcs[t].r
  {
    hide CountInv, LeakInv, ListInv, LockInv, QueueInv, ToldInv;
    assert Holds(s.pcs[t], s.pcs[t].i) && Holds(s.pcs[t], s.pcs[t].r);
  }

  lemma MovedAimed(s: State, a: Action)
    requires Inv(s) && Arrival(s) && Enabled(s, a) && Touches(s, a) <= s.reqs.Keys
    ensures Aimed(Do(s, a), a.t)
  {
    hide Inv, Without, FindTarget, FindUnique;
    if a.Go? {
      assert Aimed(s, a.t);
      if Interrupting(s.pcs[a.t]) { HeldLive(s, a.t); }
    }
  }

  lemma ToldOnly(s: State, a: Action)
    requires Inv(s) && Arrival(s) && Enabled(s, a) && Touches(s, a) <= s.reqs.Keys
    ensures forall r | r in Do(s, a).reqs && Do(s, a).reqs[r].told :: Do(s, a).reqs[r].interrupted
  {
    hide Inv, Without, FindTarget, FindUnique;
    if a.Go? {
      assert Aimed(s, a.t);
      if Interrupting(s.pcs[a.t]) { HeldLive(s, a.t); }
    }
  }

  lemma StepArrival(s: State, a: Action)
    requires Inv(s) && Arrival(s) && Enabled(s, a)
    ensures Touches(s, a) <= s.reqs.Keys && Arrival(Do(s, a))
  {
    hide Inv, Do, Enabled, Touches;
    StepKeepsInv(s, a);
    var s' := Do(s, a);
    StepSteady(s, a);
    OthersStay(s, a);
    ToldOnly(s, a);
    forall u | u in s'.pcs
      ensures Aimed(s', u)
    {
      if u == a.t {
        MovedAimed(s, a);
      } else {
        assert u in s.pcs && s.pcs[u] == s'.pcs[u] && Aimed(s, u);
        if Interrupting(s.pcs[u]) { HeldLive(s, u); }
      }
    }
  }

  // ----- what was received

  /** An INTERRUPT for the unique is among the actions. */
  ghost predicate Asked(done: seq<Action>, unique: nat) {
    exists j | 0 <= j < |done| :: done[j].Interrupt? && done[j].target == unique
  }

  lemma AskedMore(done: seq<Action>, a: Action, unique: nat)
    ensures Asked(done, unique) ==> Asked(done + [a], unique)
    ensures a.Interrupt? ==> Asked(done + [a], a.target)
  {
    if Asked(done, unique) {
      var j :| 0 <= j < |done| && done[j].Interrupt? && done[j].target == unique;
      assert (done + [a])[j] == done[j];
    }
    assert (done + [a])[|done|] == a;
  }

  /** The thread works for the INTERRUPT `i`. */
  ghost predicate OnBehalf(s: State, t: Tid, i: ReqId) {
    t in s.pcs && Interrupting(s.pcs[t]) && s.pcs[t].i == i
  }

  /** Whatever waits, is pursued or is marked goes back to an INTERRUPT that was received. */
  ghost predicate Justified(s: State, done: seq<Action>) {
    && (forall i | i in s.interrupts && i in s.reqs :: Asked(done, s.reqs[i].target))
    && (forall t: Tid, i: ReqId | OnBehalf(s, t, i) && i in s.reqs :: Asked(done, s.reqs[i].target))
    && (forall r | r in s.reqs && s.reqs[r].interrupted :: Asked(done, s.reqs[r].unique))
  }

  lemma QueueSources(s: State, a: Action)
    requires Inv(s) && Enabled(s, a) && Touches(s, a) <= s.reqs.Keys
    ensures var s' := Do(s, a);
            && (forall i | i in s'.interrupts :: i in s.interrupts || (a.Interrupt? && i == a.i && i in s'.reqs && s'.reqs[i].target == a.target))
            && (forall t: Tid, i: ReqId | OnBehalf(s', t, i) ::
                  OnBehalf(s, t, i) || (a.Interrupt? && i == a.i && i in s'.reqs && s'.reqs[i].target == a.target))
  {
    hide CountInv, LeakInv, LockInv, QueueInv, ToldInv, RoleInv, LiveInv, FindTarget, FindUnique, Without;
    if a.Dispatch? {
      var f := FindTarget(s.reqs, s.interrupts, a.unique);
      if f.Some? { WithoutFacts(s.interrupts, f.value); }
    }
    OthersStay(s, a);
  }

  lemma MarkSources(s: State, a: Action, r: ReqId)
    requires Inv(s) && Arrival(s) && Enabled(s, a) && Touches(s, a) <= s.reqs.Keys
    requires r in Do(s, a).reqs && Do(s, a).reqs[r].interrupted && !(r in s.reqs && s.reqs[r].interrupted)
    ensures (exists i | i in s.interrupts && i in s.reqs :: s.reqs[i].target == Do(s, a).reqs[r].unique)
         || (exists i :: OnBehalf(s, a.t, i) && i in s.reqs && s.reqs[i].target == Do(s, a).reqs[r].unique)
  {
    hide Inv, Without, FindUnique;
    if a.Dispatch? {
      var f := FindTarget(s.reqs, s.interrupts, a.unique);
      assert f.Some? && f.value in s.interrupts;
    } else if a.Go? {
      assert Aimed(s, a.t);
      assert s.pcs[a.t].Locked?;
      HeldLive(s, a.t);
      assert OnBehalf(s, a.t, s.pcs[a.t].i);
    }
  }

  lemma StepJustified(s: State, a: Action, done: seq<Action>)
    requires Inv(s) && Arrival(s) && Justified(s, done) && Enabled(s, a)
    ensures Touches(s, a) <= s.reqs.Keys && Justified(Do(s, a), done + [a])
  {
    hide Inv, Do, Enabled, Touches, Arrival, Asked;
    StepKeepsInv(s, a);
    var s', more := Do(s, a), done + [a];
    StepSteady(s, a);
    QueueSources(s, a);
    QueueLive(s);
    forall unique: nat
      ensures Asked(done, unique) ==> Asked(more, unique)
    {
      AskedMore(done, a, unique);
    }
    AskedMore(done, a, 0);
    forall t: Tid, i: ReqId | OnBehalf(s, t, i)
      ensures i in s.reqs
    {
      HeldLive(s, t);
    }
    forall r | r in s'.reqs && s'.reqs[r].interrupted
      ensures Asked(more, s'.reqs[r].unique)
    {
      if !(r in s.reqs && s.reqs[r].interrupted) {
        MarkSources(s, a, r);
      }
    }
  }

  lemma QueueLive(s: State)
    requires Inv(s)
    ensures forall i | i in s.interrupts :: i in s.reqs
  {
  }

  /**
   In every state of every run interrupters are at the request they were sent for, which is
   marked once they have been there, and a request is marked, or its function called, only if an
   INTERRUPT for it was received.
   */
  lemma {:induction false} NothingInvented(states: seq<State>, actions: seq<Action>, k: nat)
    requires IsRun(states, actions) && k < |states|
    ensures Inv(states[k]) && Arrival(states[k]) && Justified(states[k], actions[..k])
    decreases k
  {
    hide Inv, Do, Touches, Enabled, Arrival, Justified;
    RunSafe(states, actions, k);
    if k == 0 {
      NothingYet();
      assert actions[..0] == [];
    } else {
      NothingInvented(states, actions, k - 1);
      assert Follows(states[k - 1], actions[k - 1], states[k - 1 + 1]);
      StepArrival(states[k - 1], actions[k - 1]);
      StepJustified(states[k - 1], actions[k - 1], actions[..k - 1]);
      assert actions[..k] == actions[..k - 1] + [actions[k - 1]];
    }
  }

  lemma NothingYet()
    ensures Arrival(Initial()) && Justified(Initial(), [])
  {
  }

  // ----- arrival

  /** A request is marked at its dispatch exactly if an INTERRUPT for it waits. */
  lemma DispatchNotes(s: State, t: Tid, r: ReqId, unique: nat)
    requires Inv(s) && Enabled(s, Dispatch(t, r, unique))
    ensures Touches(s, Dispatch(t, r, unique)) <= s.reqs.Keys
    ensures var s' := Do(s, Dispatch(t, r, unique));
            r in s'.reqs && r in s'.list && s'.reqs[r].unique == unique
            && (s'.reqs[r].interrupted <==> exists i | i in s.interrupts && i in s.reqs :: s.reqs[i].target == unique)
  {
    hide Inv, Without;
    StepKeepsInv(s, Dispatch(t, r, unique));
    FreshOut(s, r);
    QueueLive(s);
  }

  lemma FreshOut(s: State, r: ReqId)
    requires Inv(s) && r !in s.reqs
    ensures r !in s.interrupts && r !in s.list
  {
  }

  /** An INTERRUPT leaves the queue only when a request comes: its own, which is marked, or another, and then it is answered. */
  lemma QueueLeaves(s: State, a: Action, i: ReqId)
    requires Inv(s) && Enabled(s, a) && i in s.interrupts
    ensures Touches(s, a) <= s.reqs.Keys && i in s.reqs
    ensures var s' := Do(s, a);
            i !in s'.interrupts ==>
              && a.Dispatch? && a.r in s'.reqs
              && (if s.reqs[i].target == a.unique then s'.reqs[a.r].interrupted
                  else a.t in s'.pcs && s'.pcs[a.t] == Clearing(i, Some(a.r)))
  {
    hide CountInv, LeakInv, LockInv, ToldInv, RoleInv, LiveInv, FindUnique, Without;
    StepKeepsInv(s, a);
    QueueLive(s);
    FirstOrRest(s.interrupts, i);
    if a.Dispatch? {
      var f := FindTarget(s.reqs, s.interrupts, a.unique);
      if f.Some? { WithoutFacts(s.interrupts, f.value); }
    }
  }

  lemma FirstOrRest(s: seq<ReqId>, i: ReqId)
    requires i in s
    ensures i == s[0] || i in s[1..]
  {
  }

  /** The INTERRUPT `i` received by `t` is on its way to `r`, or gone with `r` marked. */
  ghost predicate Pursued(s: State, t: Tid, i: ReqId, r: ReqId) {
    || (t in s.pcs && Interrupting(s.pcs[t]) && s.pcs[t].i == i && s.pcs[t].r == r)
    || (i in s.dead && (r in s.reqs ==> s.reqs[r].interrupted))
  }

  /** `r` is the request in flight that the target names, the first if there are several. */
  ghost predicate Names(s: State, target: nat, r: ReqId) {
    (forall q | q in s.list :: q in s.reqs) && FindUnique(s.reqs, s.list, target) == Some(r)
  }

  lemma NamesLive(s: State, target: nat, r: ReqId)
    requires Names(s, target, r)
    ensures r in s.list && r in s.reqs && s.reqs[r].unique == target
  {
    hide FindUnique;
  }

  lemma ReceivedPursued(s: State, t: Tid, i: ReqId, unique: nat, target: nat, r: ReqId)
    requires Inv(s) && Enabled(s, Interrupt(t, i, unique, target))
    requires Names(s, target, r)
    ensures Touches(s, Interrupt(t, i, unique, target)) <= s.reqs.Keys
    ensures Pursued(Do(s, Interrupt(t, i, unique, target)), t, i, r)
  {
    hide Inv, FindUnique, FindTarget;
    StepKeepsInv(s, Interrupt(t, i, unique, target));
  }

  lemma StepPursued(s: State, a: Action, t: Tid, i: ReqId, r: ReqId)
    requires Inv(s) && Arrival(s) && Enabled(s, a) && Pursued(s, t, i, r) && (r in s.reqs || r in s.dead)
    ensures Touches(s, a) <= s.reqs.Keys && Pursued(Do(s, a), t, i, r)
    ensures r in Do(s, a).reqs || r in Do(s, a).dead
  {
    hide Inv, Without, FindUnique, FindTarget;
    StepKeepsInv(s, a);
    StepSteady(s, a);
    DeadGrows(s, a);
    DeadApart(Do(s, a));
    if t in s.pcs && Interrupting(s.pcs[t]) {
      HeldLive(s, t);
      assert Aimed(s, t);
    }
    OthersStay(s, a);
  }

  lemma DeadApart(s: State)
    requires Inv(s)
    ensures s.reqs.Keys !! s.dead
  {
  }

  /**
   Over every run: an INTERRUPT received while its request was in flight is freed only after
   the request has been marked, unless that has been freed as well.
   */
  lemma {:induction false} Delivered(states: seq<State>, actions: seq<Action>, j: nat, k: nat, r: ReqId)
    requires IsRun(states, actions) && j < k < |states| && actions[j].Interrupt?
    requires Names(states[j], actions[j].target, r)
    ensures Pursued(states[k], actions[j].t, actions[j].i, r)
    ensures r in states[k].reqs || r in states[k].dead
    decreases k
  {
    hide Inv, Do, Touches, Enabled, Arrival, Justified, Names, Pursued;
    NothingInvented(states, actions, k - 1);
    assert Follows(states[k - 1], actions[k - 1], states[k - 1 + 1]);
    var a := actions[j];
    if k == j + 1 {
      assert r in states[j].reqs by { NamesLive(states[j], a.target, r); }
      ReceivedPursued(states[j], a.t, a.i, a.unique, a.target, r);
      DeadGrows(states[j], a);
    } else {
      Delivered(states, actions, j, k - 1, r);
      StepPursued(states[k - 1], actions[k - 1], a.t, a.i, r);
    }
  }

  /** A mark stays as long as the request does. */
  lemma {:induction false} MarkStays(states: seq<State>, actions: seq<Action>, j: nat, k: nat, r: ReqId)
    requires IsRun(states, actions) && j <= k < |states| && r in states[j].reqs && states[j].reqs[r].interrupted
    ensures r in states[k].dead || (r in states[k].reqs && states[k].reqs[r].interrupted)
    decreases k
  {
    hide Inv, Do, Touches, Enabled;
    if j < k {
      MarkStays(states, actions, j, k - 1, r);
      RunSafe(states, actions, k - 1);
      assert Follows(states[k - 1], actions[k - 1], states[k - 1 + 1]);
      StepSteady(states[k - 1], actions[k - 1]);
      DeadGrows(states[k - 1], actions[k - 1]);
    }
  }

  /** An INTERRUPT whose target is not in flight waits, or one for the same target already does. */
  lemma ReceivedWaits(s: State, t: Tid, i: ReqId, unique: nat, target: nat)
    requires Inv(s) && Enabled(s, Interrupt(t, i, unique, target))
    requires forall q | q in s.list && q in s.reqs :: s.reqs[q].unique != target
    ensures Touches(s, Interrupt(t, i, unique, target)) <= s.reqs.Keys
    ensures var s' := Do(s, Interrupt(t, i, unique, target));
            && s'.pcs == s.pcs && exists w | w in s'.interrupts && w in s'.reqs :: s'.reqs[w].target == target
  {
    hide Inv, FindUnique, FindTarget;
    StepKeepsInv(s, Interrupt(t, i, unique, target));
    QueueLive(s);
    var waiting := FindTarget(s.reqs, s.interrupts, target);
    if waiting.Some? {
      assert waiting.value in s.interrupts;
    } else {
      assert i in s.interrupts + [i];
    }
  }

  // ----- the function called back

  /** The thread works on the request, and a function is registered for interrupts of it. */
  ghost predicate Registered(s: State, t: Tid, r: ReqId) {
    t in s.pcs && s.pcs[t] == Running(r) && r in s.reqs && s.reqs[r].func
  }

  lemma OneReplier(s: State, t: Tid, u: Tid, r: ReqId)
    requires Inv(s) && t in s.pcs && u in s.pcs && Replies(s.pcs[t], r) && Replies(s.pcs[u], r)
    ensures t == u
  {
    hide LiveInv, CountInv, LeakInv, RoleInv, LockInv, QueueInv, ToldInv;
  }

  lemma StaysRegistered(s: State, a: Action, t: Tid, r: ReqId)
    requires Inv(s) && Registered(s, t, r) && Enabled(s, a) && a.t != t
    ensures Touches(s, a) <= s.reqs.Keys && Registered(Do(s, a), t, r)
  {
    hide Inv, Without, FindUnique, FindTarget;
    StepKeepsInv(s, a);
    OthersStay(s, a);
    assert Replies(s.pcs[t], r);
    if a.t in s.pcs && Replies(s.pcs[a.t], r) { OneReplier(s, t, a.t, r); }
    RunningLive(Do(s, a), t, r);
  }

  lemma RunningLive(s: State, t: Tid, r: ReqId)
    requires Inv(s) && t in s.pcs && s.pcs[t] == Running(r)
    ensures r in s.reqs
  {
    hide CountInv, LeakInv, ListInv, RoleInv, LockInv, QueueInv, ToldInv;
    assert Holds(s.pcs[t], r);
  }

  lemma SetRegisters(s: State, t: Tid, r: ReqId)
    requires Inv(s) && Enabled(s, SetFunc(t, true)) && s.pcs[t] == Running(r)
    ensures Touches(s, SetFunc(t, true)) <= s.reqs.Keys && Registered(Do(s, SetFunc(t, true)), t, r)
  {
    hide Inv;
    StepKeepsInv(s, SetFunc(t, true));
  }

  /**
   Over every run: once a thread has registered a function, and until it replies or changes that, an interrupt that has
   marked its request has also called the function, whether it came before or after.
   */
  lemma {:induction false} CalledBack(states: seq<State>, actions: seq<Action>, j: nat, k: nat, t: Tid, r: ReqId)
    requires IsRun(states, actions) && j < k < |states| && actions[j] == SetFunc(t, true)
    requires t in states[j].pcs && states[j].pcs[t] == Running(r)
    requires forall x | j < x < k :: actions[x].t != t
    ensures Registered(states[k], t, r)
    ensures states[k].reqs[r].interrupted && states[k].reqs[r].lock == None ==> states[k].reqs[r].told
    decreases k
  {
    hide Inv, Do, Touches, Enabled, Registered;
    RunSafe(states, actions, k);
    RunSafe(states, actions, k - 1);
    assert Follows(states[k - 1], actions[k - 1], states[k - 1 + 1]);
    if k == j + 1 {
      SetRegisters(states[j], t, r);
    } else {
      CalledBack(states, actions, j, k - 1, t, r);
      StaysRegistered(states[k - 1], actions[k - 1], t, r);
    }
    ToldOf(states[k], t, r);
  }

  lemma ToldOf(s: State, t: Tid, r: ReqId)
    requires Inv(s) && Registered(s, t, r)
    ensures r in s.reqs && (s.reqs[r].interrupted && s.reqs[r].lock == None ==> s.reqs[r].told)
  {
    hide LiveInv, CountInv, LeakInv, ListInv, RoleInv, LockInv, QueueInv;
  }
}
