module RecursiveMutex {
  // The recursive mutex that `sqlite3UnixEnterMutex` and `sqlite3UnixLeaveMutex`
  // build from two plain mutexes, as a state machine over any number of threads.
  // Every lock, unlock, test and assignment of the code is a step of its own.

  type Tid = int

  datatype Option<T> = None | Some(value: T)

  /** The next thing a thread will do inside one of the two routines. */
  datatype Pc =
    | Outside
    | EnterLockAux      // lock(mutexAux)
    | EnterTest         // is the calling thread the valid owner?
    | EnterUnlockAux    // unlock(mutexAux)
    | EnterLockMain     // lock(mutexMain)
    | EnterLockAux2     // both asserts, then lock(mutexAux)
    | EnterOwn          // mutexOwner and mutexOwnerValid are set
    | EnterCount        // inMutex++
    | EnterDone         // unlock(mutexAux) and return
    | LeaveLockAux      // assert, then lock(mutexAux)
    | LeaveCount        // inMutex--, assert on the owner, test for zero
    | LeaveDisown       // assert, then mutexOwnerValid is cleared
    | LeaveUnlockMain   // unlock(mutexMain)
    | LeaveDone         // unlock(mutexAux) and return

  /** `depth[t]` counts the Enter calls of `t` that have returned and that no Leave
      call has yet begun to undo.  It is not a variable of the program. */
  datatype State = State(main: Option<Tid>, aux: Option<Tid>, inMutex: int,
                         owner: Tid, ownerValid: bool,
                         pc: map<Tid, Pc>, depth: map<Tid, int>)

  datatype Event = CallEnter(t: Tid) | CallLeave(t: Tid) | Step(t: Tid)

  predicate Enabled(s: State, e: Event) {
    && e.t in s.pc && e.t in s.depth
    && match e
       case CallEnter(t) => s.pc[t].Outside?
       case CallLeave(t) => s.pc[t].Outside? && s.depth[t] > 0
       case Step(t) =>
         match s.pc[t]
         case Outside => false
         case EnterLockAux => s.aux.None?
         case EnterLockAux2 => s.aux.None?
         case LeaveLockAux => s.aux.None?
         case EnterLockMain => s.main.None?
         case _ => true
  }

  function Goto(s: State, t: Tid, pc: Pc): State {
    s.(pc := s.pc[t := pc])
  }

  function StepOf(s: State, t: Tid): State
    requires t in s.pc && t in s.depth
  {
    match s.pc[t]
    case Outside => s
    case EnterLockAux => Goto(s.(aux := Some(t)), t, EnterTest)
    case EnterTest => Goto(s, t, if !s.ownerValid || s.owner != t then EnterUnlockAux else EnterCount)
    case EnterUnlockAux => Goto(s.(aux := None), t, EnterLockMain)
    case EnterLockMain => Goto(s.(main := Some(t)), t, EnterLockAux2)
    case EnterLockAux2 => Goto(s.(aux := Some(t)), t, EnterOwn)
    case EnterOwn => Goto(s.(owner := t, ownerValid := true), t, EnterCount)
    case EnterCount => Goto(s.(inMutex := s.inMutex + 1), t, EnterDone)
    case EnterDone => Goto(s.(aux := None, depth := s.depth[t := s.depth[t] + 1]), t, Outside)
    case LeaveLockAux => Goto(s.(aux := Some(t)), t, LeaveCount)
    case LeaveCount =>
      Goto(s.(inMutex := s.inMutex - 1), t, if s.inMutex - 1 == 0 then LeaveDisown else LeaveDone)
    case LeaveDisown => Goto(s.(ownerValid := false), t, LeaveUnlockMain)
    case LeaveUnlockMain => Goto(s.(main := None), t, LeaveDone)
    case LeaveDone => Goto(s.(aux := None), t, Outside)
  }

  function Apply(s: State, e: Event): State
    requires Enabled(s, e)
  {
    match e
    case CallEnter(t) => Goto(s, t, EnterLockAux)
    case CallLeave(t) => Goto(s.(depth := s.depth[t := s.depth[t] - 1]), t, LeaveLockAux)
    case Step(t) => StepOf(s, t)
  }

  predicate Init(s: State) {
    && s.main.None? && s.aux.None? && s.inMutex == 0 && !s.ownerValid
    && s.pc.Keys == s.depth.Keys
    && forall t :: t in s.pc ==> s.pc[t].Outside? && s.depth[t] == 0
  }

  predicate IsRun(s: State, es: seq<Event>)
    decreases |es|
  {
    es == [] || (Enabled(s, es[0]) && IsRun(Apply(s, es[0]), es[1..]))
  }

  function RunFrom(s: State, es: seq<Event>): State
    requires IsRun(s, es)
    decreases |es|
  {
    if es == [] then s else RunFrom(Apply(s, es[0]), es[1..])
  }

  ghost predicate Reachable(s: State) {
    exists s0: State, es: seq<Event> :: Init(s0) && IsRun(s0, es) && RunFrom(s0, es) == s
  }

  // ----- the invariant

  predicate HoldsAux(pc: Pc) {
    || pc.EnterTest? || pc.EnterUnlockAux? || pc.EnterOwn? || pc.EnterCount? || pc.EnterDone?
    || pc.LeaveCount? || pc.LeaveDisown? || pc.LeaveUnlockMain? || pc.LeaveDone?
  }

  /** Positions at which a thread holds mutexMain whatever its depth. */
  predicate HoldsMain(pc: Pc) {
    || pc.EnterLockAux2? || pc.EnterOwn? || pc.EnterCount? || pc.EnterDone?
    || pc.LeaveLockAux? || pc.LeaveCount? || pc.LeaveDisown? || pc.LeaveUnlockMain?
  }

  /** How far `inMutex` runs ahead of the owner's depth. */
  function Ahead(pc: Pc): int {
    if pc.EnterDone? || pc.LeaveLockAux? || pc.LeaveCount? then 1 else 0
  }

  /** Positions at which the holder of mutexMain is not recorded as the owner. */
  predicate Unrecorded(pc: Pc) {
    pc.EnterLockAux2? || pc.EnterOwn? || pc.LeaveUnlockMain?
  }

  predicate ThreadInv(s: State, t: Tid)
    requires t in s.pc && t in s.depth
  {
    var pc, d := s.pc[t], s.depth[t];
    && d >= 0
    && (s.aux == Some(t) <==> HoldsAux(pc))
    && (s.main == Some(t) <==> d > 0 || HoldsMain(pc))
    && (s.main == Some(t) ==> s.inMutex == d + Ahead(pc))
    && (s.main == Some(t) && !Unrecorded(pc) ==> s.ownerValid && s.owner == t)
    && (s.main == Some(t) && Unrecorded(pc) ==> !s.ownerValid && s.inMutex == 0)
    && (pc.EnterUnlockAux? || pc.EnterLockMain? || Unrecorded(pc) || pc.LeaveDisown? ==> d == 0)
  }

  ghost predicate Inv(s: State) {
    && s.pc.Keys == s.depth.Keys
    && (s.main.None? ==> s.inMutex == 0 && !s.ownerValid)
    && (s.main.Some? ==> s.main.value in s.pc)
    && (s.aux.Some? ==> s.aux.value in s.pc)
    && forall t {:trigger ThreadInv(s, t)} :: t in s.pc && t in s.depth ==> ThreadInv(s, t)
  }

  predicate Entering(pc: Pc) {
    || pc.EnterLockAux? || pc.EnterTest? || pc.EnterUnlockAux? || pc.EnterLockMain? || pc.EnterLockAux2?
    || pc.EnterOwn? || pc.EnterCount? || pc.EnterDone?
  }

  lemma EnterStepKept(s: State, t: Tid)
    requires Inv(s) && Enabled(s, Step(t)) && Entering(s.pc[t])
    ensures t in StepOf(s, t).pc && t in StepOf(s, t).depth && ThreadInv(StepOf(s, t), t)
  {
    assert ThreadInv(s, t);
    if s.main.Some? { assert ThreadInv(s, s.main.value); }
  }

  lemma LeaveStepKept(s: State, t: Tid)
    requires Inv(s) && Enabled(s, Step(t)) && !Entering(s.pc[t])
    ensures t in StepOf(s, t).pc && t in StepOf(s, t).depth && ThreadInv(StepOf(s, t), t)
  {
    assert ThreadInv(s, t);
  }

  lemma OwnThreadKept(s: State, e: Event)
    requires Inv(s) && Enabled(s, e)
    ensures e.t in Apply(s, e).pc && e.t in Apply(s, e).depth && ThreadInv(Apply(s, e), e.t)
  {
    assert ThreadInv(s, e.t);
    if e.Step? {
      if Entering(s.pc[e.t]) { EnterStepKept(s, e.t); } else { LeaveStepKept(s, e.t); }
    }
  }

  lemma OwnStepKeeps(s: State, e: Event)
    requires Inv(s) && Enabled(s, e)
    ensures var s' := Apply(s, e);
            && s'.pc.Keys == s'.depth.Keys == s.pc.Keys
            && (s'.main.None? ==> s'.inMutex == 0 && !s'.ownerValid)
            && (s'.main == s.main || (s.main.None? && s'.main == Some(e.t)) || (s.main == Some(e.t) && s'.main.None?))
            && (s'.aux == s.aux || (s.aux.None? && s'.aux == Some(e.t)) || (s.aux == Some(e.t) && s'.aux.None?))
  {
    assert ThreadInv(s, e.t);
  }

  /** A thread that does not hold mutexMain leaves its three variables alone. */
  lemma OthersVariables(s: State, e: Event)
    requires Inv(s) && Enabled(s, e) && s.main != Some(e.t)
    ensures var s' := Apply(s, e);
            s'.inMutex == s.inMutex && s'.owner == s.owner && s'.ownerValid == s.ownerValid
  {
    assert ThreadInv(s, e.t);
  }

  lemma OtherThreadKept(s: State, s': State, e: Tid, t: Tid)
    requires t in s.pc && t in s.depth && t in s'.pc && t in s'.depth && t != e
    requires ThreadInv(s, t) && s'.pc[t] == s.pc[t] && s'.depth[t] == s.depth[t]
    requires s'.main == s.main || (s.main.None? && s'.main == Some(e)) || (s.main == Some(e) && s'.main.None?)
    requires s'.aux == s.aux || (s.aux.None? && s'.aux == Some(e)) || (s.aux == Some(e) && s'.aux.None?)
    requires s.main == Some(t) ==>
               s'.inMutex == s.inMutex && s'.owner == s.owner && s'.ownerValid == s.ownerValid
    ensures ThreadInv(s', t)
  {}

  lemma OthersUntouched(s: State, e: Event)
    requires Enabled(s, e)
    ensures forall t :: t != e.t && t in s.pc ==> t in Apply(s, e).pc && Apply(s, e).pc[t] == s.pc[t]
    ensures forall t :: t != e.t && t in s.depth ==> t in Apply(s, e).depth && Apply(s, e).depth[t] == s.depth[t]
  {}

  lemma ApplyKeepsInv(s: State, e: Event)
    requires Inv(s) && Enabled(s, e)
    ensures Inv(Apply(s, e))
  {
    OwnStepKeeps(s, e);
    OwnThreadKept(s, e);
    OthersUntouched(s, e);
    var s' := Apply(s, e);
    forall t | t in s'.pc && t in s'.depth ensures ThreadInv(s', t) {
      if t != e.t {
        assert ThreadInv(s, t);
        if s.main == Some(t) { OthersVariables(s, e); }
        OtherThreadKept(s, s', e.t, t);
      }
    }
  }

  lemma {:induction false} RunKeepsInv(s: State, es: seq<Event>)
    requires Inv(s) && IsRun(s, es)
    ensures Inv(RunFrom(s, es))
    decreases |es|
  {
    if es != [] {
      ApplyKeepsInv(s, es[0]);
      RunKeepsInv(Apply(s, es[0]), es[1..]);
    }
  }

  lemma ReachableInv(s: State)
    requires Reachable(s)
    ensures Inv(s)
  {
    var s0: State, es: seq<Event> :| Init(s0) && IsRun(s0, es) && RunFrom(s0, es) == s;
    forall t | t in s0.pc && t in s0.depth ensures ThreadInv(s0, t) {}
    RunKeepsInv(s0, es);
  }

  // ----- main results

  /** Mutual exclusion: at most one thread is inside, and while it is between calls
      `inMutex` is its nesting depth; with nobody inside and no call in progress
      `inMutex` is zero and nothing is held. */
  lemma MutualExclusion(s: State)
    requires Reachable(s)
    ensures s.pc.Keys == s.depth.Keys
    ensures forall t, u :: t in s.depth && u in s.depth && s.depth[t] > 0 && s.depth[u] > 0 ==> t == u
    ensures forall t :: t in s.depth && s.depth[t] > 0 ==>
              s.main == Some(t) && (s.pc[t].Outside? ==> s.inMutex == s.depth[t])
    ensures (forall t :: t in s.depth ==> s.depth[t] == 0 && s.pc[t].Outside?) ==>
              s.main.None? && s.aux.None? && s.inMutex == 0
  {
    ReachableInv(s);
    forall t | t in s.depth && s.depth[t] > 0
      ensures s.main == Some(t) && (s.pc[t].Outside? ==> s.inMutex == s.depth[t])
    {
      assert ThreadInv(s, t);
    }
    if s.main.Some? { assert ThreadInv(s, s.main.value); }
    if s.aux.Some? { assert ThreadInv(s, s.aux.value); }
  }

  /** The asserts that guard a thread's next step. */
  predicate AssertsHold(s: State, t: Tid)
    requires t in s.pc
  {
    match s.pc[t]
    case EnterLockAux2 => s.inMutex == 0 && !s.ownerValid
    case LeaveLockAux => s.inMutex > 0
    case LeaveCount => s.owner == t
    case LeaveDisown => s.ownerValid
    case _ => true
  }

  /** No assert can fail, and no thread waits for mutexMain with mutexAux in hand. */
  lemma AssertsNeverFail(s: State, t: Tid)
    requires Reachable(s) && t in s.pc
    ensures AssertsHold(s, t)
    ensures s.pc[t].EnterLockMain? ==> s.aux != Some(t)
  {
    ReachableInv(s);
    assert ThreadInv(s, t);
  }

  /** No deadlock: if a call is in progress, some call can go on, unless every
      waiting thread waits for a thread that is inside and between calls. */
  lemma SomeCallCanGoOn(s: State, t: Tid)
    requires Reachable(s) && t in s.pc && !s.pc[t].Outside?
    ensures || (exists u :: u in s.pc && Enabled(s, Step(u)))
            || (s.main.Some? && s.main.value in s.pc && s.main.value in s.depth
                && s.pc[s.main.value].Outside? && s.depth[s.main.value] > 0)
  {
    ReachableInv(s);
    assert ThreadInv(s, t);
    if s.aux.Some? {
      assert ThreadInv(s, s.aux.value);
      assert Enabled(s, Step(s.aux.value));
    } else if !s.pc[t].EnterLockMain? || s.main.None? {
      assert Enabled(s, Step(t));
    } else {
      var u := s.main.value;
      assert ThreadInv(s, u);
      assert s.pc[u].Outside? || Enabled(s, Step(u));
    }
  }
}
