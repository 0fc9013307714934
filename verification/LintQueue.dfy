module LintQueue {
  // The queue between the threads that report statements and the thread that checks
  // them (`lint.cc`): any number of notifiers, one checker, one destructor, a mutex and a
  // condition variable.  Every step is one action of one thread.

  datatype Thread = Notifier(id: nat) | Checker | Destructor

  datatype Owner = Free | Held(thread: Thread)

  /** Where a notifier stands in `NotifySqlExecution`. */
  datatype NotifierPc = Idle | Locked(item: int) | Pushed | Notified

  /** Where the checker stands in `TakeSqlInfo`; `Busy` is outside it.  `Asleep` waits in
      the condition variable, `Awake` has left it and wants the mutex back. */
  datatype CheckerPc = Busy | Entered | Testing | Asleep | Awake | Rechecking | Taking | Leaving | Quitting | Done

  datatype DestructorPc = Alive | Holding | ExitSet | Signalled | Joining | Gone

  /** `pushed` and `taken` are the items put in and taken out so far. */
  datatype State = State(owner: Owner, queue: seq<int>, exit: bool, notifiers: map<nat, NotifierPc>,
                         checker: CheckerPc, destructor: DestructorPc, pushed: seq<int>, taken: seq<int>)

  function Pc(s: State, t: nat): NotifierPc {
    if t in s.notifiers then s.notifiers[t] else Idle
  }

  datatype Event =
    | Lock(t: nat, item: int) | Push(t: nat) | Notify(t: nat) | Unlock(t: nat)
    | CheckerLock | CheckerEnter | CheckerTest | Spurious | CheckerRelock | CheckerRecheck
    | CheckerTake | CheckerUnlock | CheckerQuit
    | ExitLock | SetExit | ExitNotify | ExitUnlock | Join

  predicate Enabled(s: State, e: Event) {
    match e
    case Lock(t, _) => s.owner == Free && Pc(s, t) == Idle
    case Push(t) => Pc(s, t).Locked?
    case Notify(t) => Pc(s, t) == Pushed
    case Unlock(t) => Pc(s, t) == Notified
    case CheckerLock => s.owner == Free && s.checker == Busy
    case CheckerEnter => s.checker == Entered
    case CheckerTest => s.checker == Testing
    case Spurious => s.checker == Asleep
    case CheckerRelock => s.owner == Free && s.checker == Awake
    case CheckerRecheck => s.checker == Rechecking
    case CheckerTake => s.checker == Taking && s.queue != []
    case CheckerUnlock => s.checker == Leaving
    case CheckerQuit => s.checker == Quitting
    case ExitLock => s.owner == Free && s.destructor == Alive
    case SetExit => s.destructor == Holding
    case ExitNotify => s.destructor == ExitSet
    case ExitUnlock => s.destructor == Signalled
    case Join => s.destructor == Joining && s.checker == Done
  }

  /** `notify_one`: the checker is the only thread that waits. */
  function Wake(c: CheckerPc): CheckerPc {
    if c == Asleep then Awake else c
  }

  function Apply(s: State, e: Event): State
    requires Enabled(s, e)
  {
    match e
    case Lock(t, item) => s.(owner := Held(Notifier(t)), notifiers := s.notifiers[t := Locked(item)])
    case Push(t) =>
      var item := Pc(s, t).item;
      s.(queue := s.queue + [item], pushed := s.pushed + [item], notifiers := s.notifiers[t := Pushed])
    case Notify(t) => s.(checker := Wake(s.checker), notifiers := s.notifiers[t := Notified])
    case Unlock(t) => s.(owner := Free, notifiers := s.notifiers[t := Idle])
    case CheckerLock => s.(owner := Held(Checker), checker := Entered)
    case CheckerEnter => s.(checker := if s.exit then Quitting else Testing)
    case CheckerTest => if s.queue == [] then s.(owner := Free, checker := Asleep) else s.(checker := Taking)
    case Spurious => s.(checker := Awake)
    case CheckerRelock => s.(owner := Held(Checker), checker := Rechecking)
    case CheckerRecheck => s.(checker := if s.exit then Quitting else Testing)
    case CheckerTake => s.(queue := s.queue[1..], taken := s.taken + [s.queue[0]], checker := Leaving)
    case CheckerUnlock => s.(owner := Free, checker := Busy)
    case CheckerQuit => s.(owner := Free, checker := Done)
    case ExitLock => s.(owner := Held(Destructor), destructor := Holding)
    case SetExit => s.(exit := true, destructor := ExitSet)
    case ExitNotify => s.(checker := Wake(s.checker), destructor := Signalled)
    case ExitUnlock => s.(owner := Free, destructor := Joining)
    case Join => s.(destructor := Gone)
  }

  const START := State(Free, [], false, map[], Busy, Alive, [], [])

  ghost predicate IsRun(s: State, es: seq<Event>)
    decreases |es|
  {
    es == [] || (Enabled(s, es[0]) && IsRun(Apply(s, es[0]), es[1..]))
  }

  ghost function RunFrom(s: State, es: seq<Event>): State
    requires IsRun(s, es)
    decreases |es|
  {
    if es == [] then s else RunFrom(Apply(s, es[0]), es[1..])
  }

  // ----- the invariant

  predicate CheckerHolds(c: CheckerPc) {
    c == Entered || c == Testing || c == Rechecking || c == Taking || c == Leaving || c == Quitting
  }

  predicate DestructorHolds(d: DestructorPc) {
    d == Holding || d == ExitSet || d == Signalled
  }

  /** The mutex is held by exactly the thread that is inside. */
  ghost predicate Exclusive(s: State) {
    && (forall t: nat :: Pc(s, t) != Idle <==> s.owner == Held(Notifier(t)))
    && (CheckerHolds(s.checker) <==> s.owner == Held(Checker))
    && (DestructorHolds(s.destructor) <==> s.owner == Held(Destructor))
  }

  /** The holder of the mutex has changed what the checker waits for and has yet to notify. */
  ghost predicate NotifyDue(s: State) {
    match s.owner
    case Free => false
    case Held(th) =>
      match th
      case Notifier(t) => Pc(s, t) == Pushed
      case Checker => false
      case Destructor => s.destructor == ExitSet
  }

  /** The checker sleeps only while there is nothing for it, or its wake-up call is due. */
  ghost predicate NoLostWakeup(s: State) {
    s.checker == Asleep ==> (s.queue == [] && !s.exit) || NotifyDue(s)
  }

  ghost predicate Conserved(s: State) {
    s.taken + s.queue == s.pushed
  }

  ghost predicate ExitOrder(s: State) {
    && (s.exit <==> s.destructor != Alive && s.destructor != Holding)
    && (s.checker == Testing || s.checker == Taking ==> !s.exit)
    && (s.checker == Taking ==> s.queue != [])
    && (s.checker == Quitting || s.checker == Done ==> s.exit)
    && (s.destructor == Gone ==> s.checker == Done)
  }

  ghost predicate Inv(s: State) {
    Exclusive(s) && NoLostWakeup(s) && Conserved(s) && ExitOrder(s)
  }

  lemma ApplyExclusive(s: State, e: Event)
    requires Enabled(s, e) && Exclusive(s)
    ensures Exclusive(Apply(s, e))
  {
    var s' := Apply(s, e);
    forall t: nat ensures Pc(s', t) != Idle <==> s'.owner == Held(Notifier(t)) {
      assert Pc(s, t) != Idle <==> s.owner == Held(Notifier(t));
    }
  }

  lemma ApplyConserved(s: State, e: Event)
    requires Enabled(s, e) && Conserved(s)
    ensures Conserved(Apply(s, e))
  {
    if e.CheckerTake? {
      assert s.taken + s.queue == (s.taken + [s.queue[0]]) + s.queue[1..];
    }
  }

  lemma ApplyExitOrder(s: State, e: Event)
    requires Enabled(s, e) && Exclusive(s) && ExitOrder(s)
    ensures ExitOrder(Apply(s, e))
  {}

  lemma ApplyNoLostWakeup(s: State, e: Event)
    requires Enabled(s, e) && Exclusive(s) && NoLostWakeup(s) && ExitOrder(s)
    ensures NoLostWakeup(Apply(s, e))
  {
    match e
    case Push(t) => assert s.owner == Held(Notifier(t));
    case Unlock(t) => assert s.owner == Held(Notifier(t));
    case _ =>
  }

  /** Every step of every thread keeps the invariant. */
  lemma ApplyKeepsInv(s: State, e: Event)
    requires Enabled(s, e) && Inv(s)
    ensures Inv(Apply(s, e))
  {
    ApplyExclusive(s, e);
    ApplyConserved(s, e);
    ApplyExitOrder(s, e);
    ApplyNoLostWakeup(s, e);
  }

  lemma {:induction false} RunKeepsInv(s: State, es: seq<Event>)
    requires IsRun(s, es) && Inv(s)
    ensures Inv(RunFrom(s, es))
    decreases |es|
  {
    if es != [] {
      ApplyKeepsInv(s, es[0]);
      RunKeepsInv(Apply(s, es[0]), es[1..]);
    }
  }

  // ----- what holds in every run

  /** In every reachable state the items taken, then the queue, are the items pushed in
      order; at most one thread is inside the mutex; and the checker does not sleep
      while there is an item or the exit flag is set, unless the thread that did it
      still holds the mutex and is about to notify. */
  lemma EveryRunIsSafe(es: seq<Event>)
    requires IsRun(START, es)
    ensures var s := RunFrom(START, es);
            && s.taken + s.queue == s.pushed
            && Exclusive(s)
            && (s.checker == Asleep && (s.queue != [] || s.exit) ==> NotifyDue(s))
            && (s.owner == Free && (s.queue != [] || s.exit) ==> s.checker != Asleep)
  {
    RunKeepsInv(START, es);
  }

  /** Once the exit flag is set it stays set, and nothing more is taken. */
  lemma {:induction false} NothingTakenAfterExit(s: State, es: seq<Event>)
    requires IsRun(s, es) && Inv(s) && s.exit
    ensures RunFrom(s, es).exit && RunFrom(s, es).taken == s.taken
    decreases |es|
  {
    if es != [] {
      ApplyKeepsInv(s, es[0]);
      NothingTakenAfterExit(Apply(s, es[0]), es[1..]);
    }
  }

  // ----- the checker ends

  /** How many steps the checker can still take once the exit flag is set. */
  function StepsLeft(c: CheckerPc): nat {
    match c
    case Done => 0
    case Quitting => 1
    case Entered => 2
    case Rechecking => 2
    case Awake => 3
    case Busy => 3
    case Asleep => 4
    case Leaving => 4
    case Testing => 5
    case Taking => 5
  }

  predicate ByChecker(e: Event) {
    e.CheckerLock? || e.CheckerEnter? || e.CheckerTest? || e.Spurious? || e.CheckerRelock? || e.CheckerRecheck?
    || e.CheckerTake? || e.CheckerUnlock? || e.CheckerQuit?
  }

  function CheckerSteps(es: seq<Event>): nat {
    if es == [] then 0 else (if ByChecker(es[0]) then 1 else 0) + CheckerSteps(es[1..])
  }

  lemma StepCounts(s: State, e: Event)
    requires Enabled(s, e) && Inv(s) && s.exit
    ensures StepsLeft(Apply(s, e).checker) + (if ByChecker(e) then 1 else 0) <= StepsLeft(s.checker)
  {}

  /** After the exit flag is set, the checker takes at most four more steps in any run. */
  lemma {:induction false} CheckerStepsBounded(s: State, es: seq<Event>)
    requires IsRun(s, es) && Inv(s) && s.exit
    ensures CheckerSteps(es) <= StepsLeft(s.checker) <= 4
    decreases |es|
  {
    if es != [] {
      StepCounts(s, es[0]);
      ApplyKeepsInv(s, es[0]);
      assert Apply(s, es[0]).exit;
      CheckerStepsBounded(Apply(s, es[0]), es[1..]);
    }
  }

  /** The thread that acts in an event. */
  function Actor(e: Event): Thread {
    match e
    case Lock(t, _) => Notifier(t)
    case Push(t) => Notifier(t)
    case Notify(t) => Notifier(t)
    case Unlock(t) => Notifier(t)
    case ExitLock => Destructor
    case SetExit => Destructor
    case ExitNotify => Destructor
    case ExitUnlock => Destructor
    case Join => Destructor
    case _ => Checker
  }

  ghost predicate CanMove(s: State, th: Thread) {
    exists e :: Enabled(s, e) && Actor(e) == th && e != Spurious
  }

  ghost predicate Moves(s: State, e: Event, th: Thread) {
    Enabled(s, e) && Actor(e) == th && e != Spurious
  }

  lemma MoveIs(s: State, e: Event, th: Thread)
    requires Moves(s, e, th)
    ensures CanMove(s, th)
  {}

  /** Whoever holds the mutex can go on. */
  lemma HolderCanMove(s: State)
    requires Inv(s) && s.owner.Held?
    ensures CanMove(s, s.owner.thread)
  {
    match s.owner.thread
    case Notifier(t) =>
      assert Pc(s, t) != Idle;
      MoveIs(s, match Pc(s, t) case Locked(_) => Push(t) case Pushed => Notify(t) case _ => Unlock(t), Notifier(t));
    case Checker =>
      MoveIs(s, match s.checker
                case Entered => CheckerEnter
                case Testing => CheckerTest
                case Rechecking => CheckerRecheck
                case Taking => CheckerTake
                case Leaving => CheckerUnlock
                case _ => CheckerQuit, Checker);
    case Destructor =>
      MoveIs(s, match s.destructor case Holding => SetExit case ExitSet => ExitNotify case _ => ExitUnlock, Destructor);
  }

  /** While there is an item or the exit flag is set, the checker can go on, without
      luck, whenever the mutex is free, until it is done. */
  lemma CheckerCanMove(s: State)
    requires Inv(s) && s.owner == Free && (s.queue != [] || s.exit) && s.checker != Done
    ensures CanMove(s, Checker)
  {
    MoveIs(s, if s.checker == Busy then CheckerLock else CheckerRelock, Checker);
  }

  /** If the exit flag is set and no thread already inside or waiting can go on, the
      checker is done and the destructor has joined it. */
  lemma ShutdownCompletes(s: State)
    requires Inv(s) && s.exit
    requires (s.owner.Held? ==> !CanMove(s, s.owner.thread)) && !CanMove(s, Checker) && !CanMove(s, Destructor)
    ensures s.checker == Done && s.destructor == Gone && s.owner == Free
  {
    if s.owner.Held? {
      HolderCanMove(s);
    }
    if s.checker != Done {
      CheckerCanMove(s);
    }
    if s.destructor != Gone {
      MoveIs(s, Join, Destructor);
    }
  }
}
