module FileLocks {
  // The five-level file-lock protocol built from POSIX locks.
  //
  // Any number of processes have any number of handles open on one database file.
  // Every `fcntl` is one atomic step, with the assignments to process-private
  // records that follow it; steps of different processes interleave freely.
  // Inside one process the global mutex serialises the calls, except that
  // `unixUnlock` stores the new level in the handle only after it has left the
  // mutex: that store is a step of its own.

  import opened LockRegions

  type Hid = int

  type Level = int
  const NO_LOCK: Level := 0
  const SHARED: Level := 1
  const RESERVED: Level := 2
  const PENDING: Level := 3
  const EXCLUSIVE: Level := 4

  /** Where the thread that holds a process's mutex stands.  Each position except
      `Idle` is just before an `fcntl`. */
  datatype Pc =
    | Idle
    | AskPending(h: Hid, want: Level)
    | AskShared(h: Hid)
    | DropPending(h: Hid, granted: bool)
    | AskMain(h: Hid, want: Level)
    | Downgrade(h: Hid)
    | FreePendingReserved(h: Hid, to: Level)
    | FreeAll(h: Hid)

  /** One process: the `locktype` field of each of its handles, the handles whose
      unlock has left the mutex but not yet stored its level, the shared
      `lockInfo` (`cnt`, `locktype`) and `openCnt` (`nLock`) records, the POSIX
      locks it holds, and its position. */
  datatype Proc = Proc(file: map<Hid, Level>, leaving: map<Hid, Level>,
                       cnt: int, nLock: int, locktype: Level, held: Held, pc: Pc)

  type System = map<Pid, Proc>

  datatype Event =
    | LockCall(p: Pid, h: Hid, want: Level)
    | UnlockCall(p: Pid, h: Hid, to: Level)
    | Fcntl(p: Pid, ok: bool)
    | Return(p: Pid, h: Hid)

  // ----- the steps

  /** `unixLock` up to its first `fcntl`. */
  function BeginLock(x: Proc, h: Hid, want: Level): Proc
    requires h in x.file
  {
    if x.file[h] >= want then x
    else if x.file[h] != x.locktype && (x.locktype >= PENDING || want > SHARED) then x
    else if want == SHARED && (x.locktype == SHARED || x.locktype == RESERVED) then
      x.(file := x.file[h := SHARED], cnt := x.cnt + 1, nLock := x.nLock + 1)
    else if want == SHARED || (want == EXCLUSIVE && x.file[h] < PENDING) then
      x.(pc := AskPending(h, want))
    else ToMain(x, h, want)
  }

  /** The branch of `unixLock` that is entered once PENDING is dealt with. */
  function ToMain(x: Proc, h: Hid, want: Level): Proc {
    if want == EXCLUSIVE && x.cnt > 1 then Settle(x, h, PENDING)
    else x.(pc := AskMain(h, want))
  }

  function Settle(x: Proc, h: Hid, level: Level): Proc {
    x.(file := x.file[h := level], locktype := level, pc := Idle)
  }

  /** `unixUnlock` up to its first `fcntl`, or to the end of the mutex section. */
  function BeginUnlock(x: Proc, h: Hid, to: Level): Proc
    requires h in x.file
  {
    if x.file[h] <= to then x
    else if x.file[h] > SHARED then
      x.(pc := if to == SHARED then Downgrade(h) else FreePendingReserved(h, to))
    else ReleaseCount(x, h)
  }

  function ReleaseCount(x: Proc, h: Hid): Proc {
    if x.cnt - 1 == 0 then x.(cnt := 0, pc := FreeAll(h))
    else Leave(x.(cnt := x.cnt - 1, nLock := x.nLock - 1), h, NO_LOCK)
  }

  function Leave(x: Proc, h: Hid, to: Level): Proc {
    x.(leaving := x.leaving[h := to], pc := Idle)
  }

  /** The region and kind of the `fcntl` that a process is about to make. */
  function NextRegion(pc: Pc): Region
    requires !pc.Idle?
  {
    match pc
    case AskPending(_, _) => PendingByte
    case AskShared(_) => SharedRange
    case DropPending(_, _) => PendingByte
    case AskMain(_, want) => if want == EXCLUSIVE then SharedRange else ReservedByte
    case Downgrade(_) => SharedRange
    case FreePendingReserved(_, _) => PendingAndReserved
    case FreeAll(_) => WholeFile
  }

  function NextKind(pc: Pc): Kind
    requires !pc.Idle?
  {
    match pc
    case AskPending(_, want) => if want == SHARED then Read else Write
    case AskShared(_) => Read
    case AskMain(_, _) => Write
    case Downgrade(_) => Read
    case _ => Free
  }

  /** Only an acquisition can be refused; releases and the downgrade are not. */
  predicate MayFail(pc: Pc) {
    pc.AskPending? || pc.AskShared? || pc.AskMain?
  }

  /** One `fcntl` and the code after it, up to the next one or the mutex release. */
  function AfterFcntl(x: Proc, ok: bool): Proc
    requires !x.pc.Idle?
  {
    var y := if ok then x.(held := SetHeld(x.held, NextRegion(x.pc), NextKind(x.pc))) else x;
    match x.pc
    case AskPending(h, want) =>
      if !ok then y.(pc := Idle)
      else if want == SHARED then y.(pc := AskShared(h))
      else ToMain(y, h, want)
    case AskShared(h) => y.(pc := DropPending(h, ok))
    case DropPending(h, granted) =>
      if granted then Settle(y.(nLock := y.nLock + 1, cnt := 1), h, SHARED)
      else y.(pc := Idle)
    case AskMain(h, want) =>
      if ok then Settle(y, h, want)
      else if want == EXCLUSIVE then Settle(y, h, PENDING)
      else y.(pc := Idle)
    case Downgrade(h) => y.(pc := FreePendingReserved(h, SHARED))
    case FreePendingReserved(h, to) =>
      var z := y.(locktype := SHARED);
      if to == NO_LOCK then ReleaseCount(z, h) else Leave(z, h, to)
    case FreeAll(h) => Leave(y.(locktype := NO_LOCK, nLock := y.nLock - 1), h, NO_LOCK)
  }

  predicate Grantable(s: System, p: Pid)
    requires p in s && !s[p].pc.Idle?
  {
    forall q :: q in s && q != p ==> CompatibleOn(NextRegion(s[p].pc), NextKind(s[p].pc), s[q].held)
  }

  /** The three asserts at the head of `unixLock`: what a caller owes. */
  predicate GoodRequest(current: Level, want: Level) {
    || current >= want
    || (&& (current != NO_LOCK || want == SHARED)
        && want != PENDING
        && (want != RESERVED || current == SHARED))
  }

  predicate Enabled(s: System, e: Event) {
    && e.p in s
    && var x := s[e.p];
       match e
       case LockCall(_, h, want) =>
         h in x.file && h !in x.leaving && x.pc.Idle? && want <= EXCLUSIVE && GoodRequest(x.file[h], want)
       case UnlockCall(_, h, to) =>
         h in x.file && h !in x.leaving && x.pc.Idle? && NO_LOCK <= to <= SHARED
       case Fcntl(p, ok) =>
         !x.pc.Idle? && (if ok then MayFail(x.pc) ==> Grantable(s, p) else MayFail(x.pc))
       case Return(_, h) => h in x.leaving && h in x.file
  }

  function Apply(s: System, e: Event): System
    requires Enabled(s, e)
  {
    var x := s[e.p];
    s[e.p :=
      match e
      case LockCall(_, h, want) => BeginLock(x, h, want)
      case UnlockCall(_, h, to) => BeginUnlock(x, h, to)
      case Fcntl(_, ok) => AfterFcntl(x, ok)
      case Return(_, h) => Returned(x, h)]
  }

  /** Handles open at NO_LOCK and no POSIX lock anywhere. */
  predicate Init(s: System) {
    forall p :: p in s ==>
      && (forall h :: h in s[p].file ==> s[p].file[h] == NO_LOCK)
      && s[p].leaving == map[] && s[p].cnt == 0 && s[p].nLock == 0
      && s[p].locktype == NO_LOCK && s[p].held == NOTHING_HELD && s[p].pc.Idle?
  }

  predicate IsRun(s: System, es: seq<Event>)
    decreases |es|
  {
    es == [] || (Enabled(s, es[0]) && IsRun(Apply(s, es[0]), es[1..]))
  }

  function RunFrom(s: System, es: seq<Event>): System
    requires IsRun(s, es)
    decreases |es|
  {
    if es == [] then s else RunFrom(Apply(s, es[0]), es[1..])
  }

  ghost predicate Reachable(s: System) {
    exists s0: System, es: seq<Event> :: Init(s0) && IsRun(s0, es) && RunFrom(s0, es) == s
  }

  // ----- what is promised

  /** The level a handle's user may rely on: the stored level, except that a user
      who has called unlock no longer relies on more than the level asked for. */
  function Relied(x: Proc, h: Hid): Level
    requires h in x.file
  {
    if h in x.leaving then x.leaving[h]
    else match x.pc
      case Downgrade(g) => if g == h then SHARED else x.file[h]
      case FreePendingReserved(g, to) => if g == h then to else x.file[h]
      case FreeAll(g) => if g == h then NO_LOCK else x.file[h]
      case _ => x.file[h]
  }

  /** Two handles, of the same or of different processes. */
  predicate TwoHandles(s: System, p: Pid, h: Hid, q: Pid, g: Hid) {
    p in s && q in s && h in s[p].file && g in s[q].file && (p != q || h != g)
  }

  ghost predicate Safe(s: System) {
    forall p: Pid, h: Hid, q: Pid, g: Hid
      {:trigger Relied(s[p], h), Relied(s[q], g)} :: TwoHandles(s, p, h, q, g) ==>
      var a, b := Relied(s[p], h), Relied(s[q], g);
      && (a == EXCLUSIVE ==> b == NO_LOCK)
      && !(a == RESERVED && b == RESERVED)
      && !(a >= PENDING && b >= PENDING)
  }

  // ----- the invariant

  /** The level at which a handle is counted in its process's records. */
  function Acct(x: Proc, h: Hid): Level
    requires h in x.file
  {
    if h in x.leaving then x.leaving[h]
    else if x.pc == FreeAll(h) then NO_LOCK
    else x.file[h]
  }

  ghost function Locked(x: Proc): set<Hid> {
    set h | h in x.file && Acct(x, h) != NO_LOCK
  }

  /** The POSIX locks that go with the level of the whole process. */
  predicate HeldMatches(x: Proc) {
    && x.held.shared == (if x.locktype == NO_LOCK then Free
                         else if x.locktype == EXCLUSIVE then Write else Read)
    && x.held.pending == (if x.locktype >= PENDING then Write else Free)
    && (x.locktype <= SHARED ==> x.held.reserved == Free)
    && (x.locktype == RESERVED ==> x.held.reserved == Write)
  }

  /** The records agree with the handles. */
  ghost predicate Counts(x: Proc) {
    && x.leaving.Keys <= x.file.Keys
    && (forall h :: h in x.leaving ==> NO_LOCK <= x.leaving[h] <= SHARED)
    && NO_LOCK <= x.locktype <= EXCLUSIVE
    && (forall h :: h in x.file ==> NO_LOCK <= Acct(x, h))
    && x.cnt == |Locked(x)|
    && x.nLock == x.cnt + (if x.pc.FreeAll? then 1 else 0)
    && (forall h :: h in x.file ==> Acct(x, h) <= x.locktype)
    && (forall h :: h in x.file && Acct(x, h) > SHARED ==> Acct(x, h) == x.locktype)
    && (forall h, g :: h in x.file && g in x.file && Acct(x, h) > SHARED && Acct(x, g) > SHARED ==> h == g)
    && (!x.pc.FreeAll? && x.locktype > NO_LOCK ==> exists h :: h in x.file && Acct(x, h) == x.locktype)
    && (x.locktype == NO_LOCK ==> x.cnt == 0)
    && (x.cnt == 0 ==> x.locktype == NO_LOCK || x.pc.FreeAll?)
    && (x.locktype == EXCLUSIVE ==> x.cnt == 1)
  }

  ghost predicate AtPc(x: Proc) {
    && (!x.pc.Idle? ==> x.pc.h in x.file && x.pc.h !in x.leaving)
    && match x.pc
       case Idle => HeldMatches(x)
       case AskPending(h, want) =>
         && HeldMatches(x) && x.file[h] == x.locktype
         && if want == SHARED then x.locktype == NO_LOCK
            else want == EXCLUSIVE && SHARED <= x.locktype < PENDING
       case AskShared(h) =>
         x.locktype == NO_LOCK && x.held == Held(Read, Free, Free)
       case DropPending(h, granted) =>
         x.locktype == NO_LOCK && x.held == Held(Read, Free, if granted then Read else Free)
       case AskMain(h, want) =>
         && x.file[h] == x.locktype
         && if want == RESERVED then x.locktype == SHARED && HeldMatches(x)
            else && want == EXCLUSIVE && x.cnt == 1 && SHARED <= x.locktype < EXCLUSIVE
                 && x.held.pending == Write && x.held.shared == Read
                 && (x.locktype == SHARED ==> x.held.reserved == Free)
                 && (x.locktype == RESERVED ==> x.held.reserved == Write)
       case Downgrade(h) =>
         x.file[h] == x.locktype > SHARED && HeldMatches(x)
       case FreePendingReserved(h, to) =>
         && x.file[h] == x.locktype > SHARED && NO_LOCK <= to <= SHARED
         && if to == SHARED then x.held.shared == Read else HeldMatches(x)
       case FreeAll(h) =>
         && x.cnt == 0 && x.locktype == SHARED && x.file[h] > NO_LOCK
         && x.held.pending == Free && x.held.reserved == Free && x.held.shared != Free
  }

  /** An unlock that has left the mutex is about to lower its handle. */
  ghost predicate LeavingLowers(x: Proc) {
    forall h :: h in x.leaving && h in x.file ==> x.leaving[h] < x.file[h]
  }

  ghost predicate ProcInv(x: Proc) {
    Counts(x) && AtPc(x) && LeavingLowers(x)
  }

  predicate HeldTogether(a: Held, b: Held) {
    Compatible(a.pending, b.pending) && Compatible(a.reserved, b.reserved) && Compatible(a.shared, b.shared)
  }

  predicate KernelInv(s: System) {
    forall p, q {:trigger HeldTogether(s[p].held, s[q].held)} ::
      p in s && q in s && p != q ==> HeldTogether(s[p].held, s[q].held)
  }

  ghost predicate Inv(s: System) {
    && KernelInv(s)
    && forall p {:trigger ProcInv(s[p])} :: p in s ==> ProcInv(s[p])
  }

  // ----- preservation: how one changed handle moves the counts

  /** `x` and `y` have the same handles, counted alike except perhaps `h`. */
  ghost predicate SameBut(x: Proc, y: Proc, h: Hid) {
    && h in x.file && y.file.Keys == x.file.Keys
    && y.leaving.Keys <= y.file.Keys
    && (forall g :: g in y.leaving ==> NO_LOCK <= y.leaving[g] <= SHARED)
    && (forall g :: g in x.file && g != h ==> Acct(y, g) == Acct(x, g))
  }

  lemma LockedSame(x: Proc, y: Proc, h: Hid)
    requires SameBut(x, y, h)
    requires Acct(x, h) == NO_LOCK <==> Acct(y, h) == NO_LOCK
    ensures Locked(x) == Locked(y)
  {}

  lemma LockedOneMore(x: Proc, y: Proc, h: Hid)
    requires SameBut(x, y, h)
    requires Acct(x, h) == NO_LOCK && Acct(y, h) != NO_LOCK
    ensures Locked(y) == Locked(x) + {h} && |Locked(y)| == |Locked(x)| + 1
  {
    assert Locked(y) == Locked(x) + {h};
  }

  lemma OnlyLocked(x: Proc, h: Hid)
    requires h in x.file && Acct(x, h) != NO_LOCK && |Locked(x)| == 1
    ensures forall g :: g in x.file && g != h ==> Acct(x, g) == NO_LOCK
  {
    assert h in Locked(x);
    assert |Locked(x) - {h}| == 0;
    forall g | g in x.file && g != h ensures Acct(x, g) == NO_LOCK {
      assert g !in Locked(x) - {h};
    }
  }

  lemma NoneLocked(x: Proc)
    requires |Locked(x)| == 0
    ensures forall g :: g in x.file ==> Acct(x, g) == NO_LOCK
  {
    forall g | g in x.file ensures Acct(x, g) == NO_LOCK {
      assert g !in Locked(x);
    }
  }

  /** Some handle is counted at the level of the whole process. */
  ghost predicate TopReached(x: Proc) {
    exists h :: h in x.file && Acct(x, h) == x.locktype
  }

  lemma CountsUnchanged(x: Proc, y: Proc, h: Hid)
    requires Counts(x) && SameBut(x, y, h) && Acct(y, h) == Acct(x, h)
    requires y.cnt == x.cnt && y.nLock == x.nLock && y.locktype == x.locktype
    requires x.pc.FreeAll? <==> y.pc.FreeAll?
    ensures Counts(y)
  {
    LockedSame(x, y, h);
    if !x.pc.FreeAll? && x.locktype > NO_LOCK {
      var top :| top in x.file && Acct(x, top) == x.locktype;
      assert Acct(y, top) == y.locktype;
    }
  }

  /** `h` joins at SHARED. */
  lemma CountsJoin(x: Proc, y: Proc, h: Hid)
    requires Counts(x) && SameBut(x, y, h) && Acct(x, h) == NO_LOCK && Acct(y, h) == SHARED
    requires y.cnt == x.cnt + 1 && y.nLock == x.nLock + 1
    requires x.locktype <= RESERVED && y.locktype == (if x.locktype == NO_LOCK then SHARED else x.locktype)
    requires !x.pc.FreeAll? && !y.pc.FreeAll?
    ensures Counts(y)
  {
    LockedOneMore(x, y, h);
    if x.locktype > NO_LOCK {
      var top :| top in x.file && Acct(x, top) == x.locktype;
      assert Acct(y, top) == y.locktype;
    } else {
      assert Acct(y, h) == y.locktype;
    }
  }

  /** `h`, one of the highest handles, moves to `y.locktype`, above SHARED. */
  lemma CountsRaise(x: Proc, y: Proc, h: Hid)
    requires Counts(x) && SameBut(x, y, h) && Acct(x, h) == x.locktype >= SHARED
    requires SHARED < Acct(y, h) == y.locktype <= EXCLUSIVE
    requires y.cnt == x.cnt && y.nLock == x.nLock
    requires y.locktype == EXCLUSIVE ==> x.cnt == 1
    requires !x.pc.FreeAll? && !y.pc.FreeAll?
    ensures Counts(y)
  {
    LockedSame(x, y, h);
    assert |Locked(y)| > 0 by { assert h in Locked(y); }
    forall g | g in y.file && g != h ensures Acct(y, g) <= SHARED {
      assert Acct(x, g) <= x.locktype;
    }
    assert TopReached(y);
  }

  /** `h`, above SHARED, moves down to SHARED and the process with it. */
  lemma CountsLower(x: Proc, y: Proc, h: Hid)
    requires Counts(x) && SameBut(x, y, h) && Acct(x, h) == x.locktype > SHARED
    requires Acct(y, h) == y.locktype == SHARED
    requires y.cnt == x.cnt && y.nLock == x.nLock
    requires !x.pc.FreeAll? && !y.pc.FreeAll?
    ensures Counts(y)
  {
    LockedSame(x, y, h);
    assert |Locked(y)| > 0 by { assert h in Locked(y); }
    forall g | g in y.file && g != h ensures Acct(y, g) <= SHARED {
      assert Acct(x, g) <= x.locktype;
    }
    assert TopReached(y);
  }

  /** `h` is released while other handles of the process stay locked. */
  lemma CountsRelease(x: Proc, y: Proc, h: Hid)
    requires Counts(x) && SameBut(x, y, h) && Acct(x, h) >= SHARED && Acct(y, h) == NO_LOCK
    requires y.cnt == x.cnt - 1 > 0 && y.nLock == x.nLock - 1
    requires y.locktype == (if Acct(x, h) > SHARED then SHARED else x.locktype)
    requires !x.pc.FreeAll? && !y.pc.FreeAll?
    ensures Counts(y)
  {
    LockedOneMore(y, x, h);
    var g :| g in Locked(y);
    assert Acct(y, g) == Acct(x, g);
    forall f | f in y.file ensures Acct(y, f) <= y.locktype {
      assert f == h || Acct(y, f) == Acct(x, f);
    }
    var top :| top in x.file && Acct(x, top) == x.locktype;
    assert Acct(y, g) == y.locktype || Acct(y, top) == y.locktype;
    assert TopReached(y);
  }

  /** `h` was the last locked handle; the process is about to free everything. */
  lemma CountsLast(x: Proc, y: Proc, h: Hid)
    requires Counts(x) && SameBut(x, y, h) && Acct(x, h) >= SHARED && Acct(y, h) == NO_LOCK
    requires x.cnt == 1 && y.cnt == 0 && y.nLock == x.nLock && y.locktype == SHARED
    requires !x.pc.FreeAll? && y.pc == FreeAll(h)
    ensures Counts(y)
  {
    LockedOneMore(y, x, h);
    OnlyLocked(x, h);
  }

  // ----- preservation: one process

  lemma BeginLockKeeps(x: Proc, h: Hid, want: Level)
    requires ProcInv(x) && x.pc.Idle? && h in x.file && h !in x.leaving
    requires want <= EXCLUSIVE && GoodRequest(x.file[h], want)
    ensures ProcInv(BeginLock(x, h, want)) && BeginLock(x, h, want).held == x.held
  {
    var y := BeginLock(x, h, want);
    if y == x {
    } else if y.cnt > x.cnt {
      CountsJoin(x, y, h);
    } else if y.pc.Idle? {
      CountsRaise(x, y, h);
    } else {
      CountsUnchanged(x, y, h);
      assert x.file[h] == x.locktype;
      if y.pc.AskMain? { assert h in Locked(x); assert |Locked(x)| > 0; }
    }
  }

  lemma ReleaseKeeps(x: Proc, z: Proc, h: Hid)
    requires Counts(x) && LeavingLowers(x)
    requires !x.pc.FreeAll? && h in x.file && h !in x.leaving && x.file[h] > NO_LOCK
    requires z.file == x.file && z.leaving == x.leaving && z.cnt == x.cnt && z.nLock == x.nLock
    requires !z.pc.FreeAll? && z.locktype == (if x.file[h] > SHARED then SHARED else x.locktype)
    requires z.held.shared != Free
    requires x.cnt > 1 ==> HeldMatches(z)
    requires x.cnt == 1 ==> z.held.pending == Free && z.held.reserved == Free && z.locktype == SHARED
    ensures ProcInv(ReleaseCount(z, h))
  {
    var y := ReleaseCount(z, h);
    assert h in Locked(x);
    assert x.cnt > 0;
    if x.cnt == 1 { CountsLast(x, y, h); } else { CountsRelease(x, y, h); }
  }

  lemma BeginUnlockKeeps(x: Proc, h: Hid, to: Level)
    requires ProcInv(x) && x.pc.Idle? && h in x.file && h !in x.leaving && NO_LOCK <= to <= SHARED
    ensures ProcInv(BeginUnlock(x, h, to)) && BeginUnlock(x, h, to).held == x.held
  {
    assert Acct(x, h) == x.file[h];
    if x.file[h] <= to {
    } else if x.file[h] > SHARED {
      CountsUnchanged(x, BeginUnlock(x, h, to), h);
    } else {
      if x.cnt == 1 {
        OnlyLocked(x, h);
        var top :| top in x.file && Acct(x, top) == x.locktype;
        assert top == h;
      }
      ReleaseKeeps(x, x, h);
    }
  }

  lemma AskPendingKeeps(x: Proc, ok: bool)
    requires ProcInv(x) && x.pc.AskPending?
    ensures ProcInv(AfterFcntl(x, ok))
  {
    var y, h := AfterFcntl(x, ok), x.pc.h;
    assert Acct(x, h) == x.file[h];
    if y.pc.AskMain? { assert h in Locked(x); assert |Locked(x)| > 0; }
    if y.pc.Idle? && ok { CountsRaise(x, y, h); } else { CountsUnchanged(x, y, h); }
  }

  lemma AskSharedKeeps(x: Proc, ok: bool)
    requires ProcInv(x) && (x.pc.AskShared? || (x.pc.DropPending? && ok))
    ensures ProcInv(AfterFcntl(x, ok))
  {
    var y, h := AfterFcntl(x, ok), x.pc.h;
    if x.pc.DropPending? && x.pc.granted {
      assert Acct(x, h) == NO_LOCK;
      CountsJoin(x, y, h);
    } else {
      CountsUnchanged(x, y, h);
    }
  }

  lemma AskMainKeeps(x: Proc, ok: bool)
    requires ProcInv(x) && x.pc.AskMain?
    ensures ProcInv(AfterFcntl(x, ok))
  {
    var y, h := AfterFcntl(x, ok), x.pc.h;
    assert Acct(x, h) == x.file[h];
    if ok || x.pc.want == EXCLUSIVE { CountsRaise(x, y, h); } else { CountsUnchanged(x, y, h); }
  }

  lemma FreeKeeps(x: Proc)
    requires ProcInv(x) && (x.pc.Downgrade? || x.pc.FreePendingReserved? || x.pc.FreeAll?)
    ensures ProcInv(AfterFcntl(x, true))
  {
    var y, h := AfterFcntl(x, true), x.pc.h;
    if x.pc.Downgrade? {
      CountsUnchanged(x, y, h);
    } else if x.pc.FreeAll? {
      NoneLocked(x);
      LockedSame(x, y, h);
    } else if x.pc.to == NO_LOCK {
      ReleaseKeeps(x, x.(held := SetHeld(x.held, PendingAndReserved, Free), locktype := SHARED), h);
    } else {
      CountsLower(x, y, h);
    }
  }

  lemma AfterFcntlKeeps(x: Proc, ok: bool)
    requires ProcInv(x) && !x.pc.Idle? && (ok || MayFail(x.pc))
    ensures ProcInv(AfterFcntl(x, ok))
  {
    match x.pc
    case AskPending(_, _) => AskPendingKeeps(x, ok);
    case AskShared(_) => AskSharedKeeps(x, ok);
    case DropPending(_, _) => AskSharedKeeps(x, ok);
    case AskMain(_, _) => AskMainKeeps(x, ok);
    case Downgrade(_) => FreeKeeps(x);
    case FreePendingReserved(_, _) => FreeKeeps(x);
    case FreeAll(_) => FreeKeeps(x);
  }

  function Returned(x: Proc, h: Hid): Proc
    requires h in x.leaving
  {
    x.(file := x.file[h := x.leaving[h]], leaving := x.leaving - {h})
  }

  lemma ReturnKeeps(x: Proc, h: Hid)
    requires ProcInv(x) && h in x.leaving && h in x.file
    ensures ProcInv(Returned(x, h))
  {
    var y := Returned(x, h);
    assert Counts(y) by { CountsUnchanged(x, y, h); }
    assert AtPc(x) && AtPc(y);
  }

  // ----- preservation: the whole system

  lemma ApplyKeepsProc(s: System, e: Event)
    requires Inv(s) && Enabled(s, e)
    ensures ProcInv(Apply(s, e)[e.p])
  {
    var x := s[e.p];
    assert ProcInv(x);
    match e
    case LockCall(_, h, want) => BeginLockKeeps(x, h, want);
    case UnlockCall(_, h, to) => BeginUnlockKeeps(x, h, to);
    case Fcntl(_, ok) => AfterFcntlKeeps(x, ok);
    case Return(_, h) => ReturnKeeps(x, h);
  }

  /** Only a granted `fcntl` changes POSIX locks, and only on its own range. */
  lemma FcntlHeld(x: Proc, ok: bool)
    requires !x.pc.Idle?
    ensures AfterFcntl(x, ok).held == if ok then SetHeld(x.held, NextRegion(x.pc), NextKind(x.pc)) else x.held
  {}

  /** The kernel never has to refuse a release or a downgrade: the code's
      "this should never happen" branches are dead. */
  lemma ReleasesAreGrantable(s: System, p: Pid)
    requires Inv(s) && p in s && !s[p].pc.Idle? && !MayFail(s[p].pc)
    ensures Grantable(s, p)
  {
    assert ProcInv(s[p]);
    forall q | q in s && q != p
      ensures CompatibleOn(NextRegion(s[p].pc), NextKind(s[p].pc), s[q].held)
    {
      assert HeldTogether(s[p].held, s[q].held);
    }
  }

  lemma ApplyKeepsKernel(s: System, e: Event)
    requires Inv(s) && Enabled(s, e)
    ensures KernelInv(Apply(s, e))
  {
    var s' := Apply(s, e);
    if e.Fcntl? && !MayFail(s[e.p].pc) { ReleasesAreGrantable(s, e.p); }
    forall p, q | p in s' && q in s' && p != q ensures HeldTogether(s'[p].held, s'[q].held) {
      assert HeldTogether(s[p].held, s[q].held);
      if e.Fcntl? { FcntlHeld(s[e.p], e.ok); }
    }
  }

  lemma ApplyKeepsInv(s: System, e: Event)
    requires Inv(s) && Enabled(s, e)
    ensures Inv(Apply(s, e))
  {
    ApplyKeepsKernel(s, e);
    forall p | p in Apply(s, e) ensures ProcInv(Apply(s, e)[p]) {
      if p == e.p { ApplyKeepsProc(s, e); } else { assert ProcInv(s[p]); }
    }
  }

  lemma InitInv(s: System)
    requires Init(s)
    ensures Inv(s)
  {
    forall p | p in s ensures ProcInv(s[p]) {
      assert forall h :: h in s[p].file ==> Acct(s[p], h) == NO_LOCK;
      assert Locked(s[p]) == {};
    }
  }

  lemma {:induction false} RunKeepsInv(s: System, es: seq<Event>)
    requires Inv(s) && IsRun(s, es)
    ensures Inv(RunFrom(s, es))
    decreases |es|
  {
    if es != [] {
      ApplyKeepsInv(s, es[0]);
      RunKeepsInv(Apply(s, es[0]), es[1..]);
    }
  }

  lemma ReachableInv(s: System)
    requires Reachable(s)
    ensures Inv(s)
  {
    var s0: System, es: seq<Event> :| Init(s0) && IsRun(s0, es) && RunFrom(s0, es) == s;
    InitInv(s0);
    RunKeepsInv(s0, es);
  }

  // ----- main results

  lemma ReliedBounds(x: Proc, h: Hid)
    requires ProcInv(x) && h in x.file
    ensures Relied(x, h) <= Acct(x, h)
    ensures Relied(x, h) >= RESERVED ==> Relied(x, h) == Acct(x, h) == x.locktype && !x.pc.FreeAll?
    ensures Relied(x, h) == RESERVED ==> x.held.reserved == Write
    ensures Relied(x, h) >= PENDING ==> x.held.pending == Write
    ensures Relied(x, h) == EXCLUSIVE ==> x.held.shared == Write && x.cnt == 1
    ensures Acct(x, h) > NO_LOCK ==> x.held.shared != Free
  {
    if Acct(x, h) > NO_LOCK { assert h in Locked(x); assert |Locked(x)| > 0; }
  }

  lemma InvSafe(s: System)
    requires Inv(s)
    ensures Safe(s)
  {
    forall p: Pid, h: Hid, q: Pid, g: Hid | TwoHandles(s, p, h, q, g)
      ensures var a, b := Relied(s[p], h), Relied(s[q], g);
              && (a == EXCLUSIVE ==> b == NO_LOCK)
              && !(a == RESERVED && b == RESERVED)
              && !(a >= PENDING && b >= PENDING)
    {
      assert ProcInv(s[p]) && ProcInv(s[q]);
      ReliedBounds(s[p], h);
      ReliedBounds(s[q], g);
      if p != q {
        assert HeldTogether(s[p].held, s[q].held);
      } else if Relied(s[p], h) == EXCLUSIVE {
        OnlyLocked(s[p], h);
      }
    }
  }

  /** Whole-run safety: after any interleaving of any number of processes and
      handles, an EXCLUSIVE handle is alone, at most one handle anywhere is
      RESERVED, and at most one is PENDING or higher. */
  lemma EveryReachableStateIsSafe(s: System)
    requires Reachable(s)
    ensures Safe(s)
  {
    ReachableInv(s);
    InvSafe(s);
  }

  /** The records of a process that is between calls, said without the invariant:
      `cnt` and `nLock` are the number of locked handles, `locktype` is the highest
      level of any handle, at most one handle is above SHARED, and the POSIX locks
      are those of that level. */
  lemma BetweenCalls(s: System, p: Pid)
    requires Reachable(s) && p in s && s[p].pc.Idle?
    ensures var x := s[p];
            var locked := set h | h in x.file && Relied(x, h) != NO_LOCK;
            && x.cnt == x.nLock == |locked|
            && (forall h :: h in x.file ==> Relied(x, h) <= x.locktype)
            && (x.locktype > NO_LOCK ==> exists h :: h in x.file && Relied(x, h) == x.locktype)
            && (forall h, g :: h in x.file && g in x.file && Relied(x, h) > SHARED && Relied(x, g) > SHARED ==> h == g)
            && HeldMatches(x)
  {
    ReachableInv(s);
    var x := s[p];
    assert ProcInv(x);
    assert forall h :: h in x.file ==> Relied(x, h) == Acct(x, h);
    assert Locked(x) == set h | h in x.file && Relied(x, h) != NO_LOCK;
    if x.locktype > NO_LOCK {
      var top :| top in x.file && Acct(x, top) == x.locktype;
      assert Relied(x, top) == x.locktype;
    }
  }

  /** The asserts of `unixLock` and `unixUnlock` on `cnt`, `nLock` and `locktype`,
      each at the point where the code evaluates it. */
  predicate AssertsHold(s: System, e: Event)
    requires Enabled(s, e)
  {
    var x := s[e.p];
    && Apply(s, e)[e.p].nLock >= 0
    && match e
       case LockCall(_, h, want) =>
         var y := BeginLock(x, h, want);
         && (y.cnt > x.cnt ==> x.cnt > 0 && x.file[h] == NO_LOCK)
         && (y.pc.AskMain? || (y != x && y.pc.Idle? && y.cnt == x.cnt) ==> x.file[h] != NO_LOCK)
       case UnlockCall(_, h, to) =>
         x.file[h] > to ==> x.cnt != 0 && (x.file[h] > SHARED ==> x.locktype == x.file[h])
       case Fcntl(_, ok) =>
         x.pc.AskPending? && ok ==>
           if x.pc.want == SHARED then x.cnt == 0 && x.locktype == NO_LOCK
           else x.pc.h in x.file && x.file[x.pc.h] != NO_LOCK
       case Return(_, _) => true
  }

  lemma LockedMeansCounted(x: Proc, h: Hid)
    requires Counts(x) && h in x.file && Acct(x, h) != NO_LOCK
    ensures x.cnt > 0 && x.locktype > NO_LOCK
  {
    assert h in Locked(x);
  }

  lemma LockAssertsHold(x: Proc, h: Hid, want: Level)
    requires ProcInv(x) && x.pc.Idle? && h in x.file && h !in x.leaving && want <= EXCLUSIVE && GoodRequest(x.file[h], want)
    ensures var y := BeginLock(x, h, want);
            && (y.cnt > x.cnt ==> x.cnt > 0 && x.file[h] == NO_LOCK)
            && (y.pc.AskMain? || (y != x && y.pc.Idle? && y.cnt == x.cnt) ==> x.file[h] != NO_LOCK)
  {
    if x.locktype > NO_LOCK {
      var top :| top in x.file && Acct(x, top) == x.locktype;
      LockedMeansCounted(x, top);
    }
  }

  lemma AssertsNeverFail(s: System, e: Event)
    requires Reachable(s) && Enabled(s, e)
    ensures AssertsHold(s, e)
  {
    ReachableInv(s);
    var x := s[e.p];
    assert Apply(s, e)[e.p].nLock >= 0 by {
      ApplyKeepsInv(s, e);
      assert ProcInv(Apply(s, e)[e.p]);
    }
    assert ProcInv(x);
    match e
    case LockCall(_, h, want) => LockAssertsHold(x, h, want);
    case UnlockCall(_, h, to) => if x.file[h] > to { LockedMeansCounted(x, h); }
    case Fcntl(_, _) =>
    case Return(_, _) =>
  }

  // ----- PENDING starves new readers

  ghost predicate NobodyShares(x: Proc) {
    forall h :: h in x.file ==> Relied(x, h) == NO_LOCK
  }

  /** The processes with a handle at SHARED or above. */
  ghost function Sharers(s: System): set<Pid> {
    set p | p in s && !NobodyShares(s[p])
  }

  ghost predicate PendingHeld(s: System) {
    exists p, h :: p in s && h in s[p].file && Relied(s[p], h) >= PENDING
  }

  lemma IdleUnshared(x: Proc)
    requires ProcInv(x) && x.pc.Idle? && NobodyShares(x)
    ensures x.locktype == NO_LOCK
  {
    assert forall h :: h in x.file ==> Acct(x, h) == Relied(x, h);
  }

  lemma FcntlAddsNoSharer(x: Proc, ok: bool)
    requires ProcInv(x) && !x.pc.Idle? && !x.pc.DropPending? && NobodyShares(x)
    ensures NobodyShares(AfterFcntl(x, ok))
  {
    assert AtPc(x);
    var y := AfterFcntl(x, ok);
    if MayFail(x.pc) {
      assert Relied(x, x.pc.h) == x.file[x.pc.h];
      assert y.file == x.file && y.leaving == x.leaving;
      forall h | h in y.file ensures Relied(y, h) == NO_LOCK { assert Relied(x, h) == NO_LOCK; }
    } else {
      forall h | h in y.file ensures Relied(y, h) == NO_LOCK { assert Relied(x, h) == NO_LOCK; }
    }
  }

  /** A process gets its first SHARED handle only by dropping the PENDING byte at
      the end of a granted acquisition. */
  lemma NoFirstSharer(s: System, e: Event)
    requires Inv(s) && Enabled(s, e) && NobodyShares(s[e.p])
    requires !(e.Fcntl? && s[e.p].pc.DropPending?)
    ensures NobodyShares(Apply(s, e)[e.p])
  {
    var x, y := s[e.p], Apply(s, e)[e.p];
    assert ProcInv(x);
    match e
    case LockCall(_, h, want) =>
      IdleUnshared(x);
      assert Relied(x, h) == x.file[h];
      assert forall g :: g in y.file ==> Relied(y, g) == Relied(x, g);
    case UnlockCall(_, h, to) =>
      assert Relied(x, h) == x.file[h];
    case Fcntl(_, ok) => FcntlAddsNoSharer(x, ok);
    case Return(_, h) =>
      assert forall g :: g in y.file ==> Relied(y, g) == Relied(x, g);
  }

  lemma PendingBlocksDrop(s: System, e: Event)
    requires Inv(s) && Enabled(s, e) && PendingHeld(s)
    ensures !(e.Fcntl? && s[e.p].pc.DropPending?)
  {
    var q, g :| q in s && g in s[q].file && Relied(s[q], g) >= PENDING;
    assert ProcInv(s[e.p]) && ProcInv(s[q]);
    ReliedBounds(s[q], g);
    assert q != e.p ==> HeldTogether(s[q].held, s[e.p].held);
  }

  /** While a handle is PENDING or EXCLUSIVE, one step cannot give a process its
      first SHARED handle. */
  lemma StepAddsNoSharer(s: System, e: Event)
    requires Inv(s) && Enabled(s, e) && PendingHeld(s)
    ensures Sharers(Apply(s, e)) <= Sharers(s)
  {
    PendingBlocksDrop(s, e);
    if NobodyShares(s[e.p]) { NoFirstSharer(s, e); }
    var s' := Apply(s, e);
    forall p | p in Sharers(s') ensures p in Sharers(s) {
      assert !NobodyShares(s'[p]);
      assert p == e.p || s'[p] == s[p];
    }
  }

  ghost predicate PendingThroughout(s: System, es: seq<Event>)
    requires IsRun(s, es)
    decreases |es|
  {
    es == [] || (PendingHeld(s) && PendingThroughout(Apply(s, es[0]), es[1..]))
  }

  lemma {:induction false} RunAddsNoSharer(s: System, es: seq<Event>)
    requires Inv(s) && IsRun(s, es) && PendingThroughout(s, es)
    ensures Sharers(RunFrom(s, es)) <= Sharers(s)
    decreases |es|
  {
    if es != [] {
      StepAddsNoSharer(s, es[0]);
      ApplyKeepsInv(s, es[0]);
      RunAddsNoSharer(Apply(s, es[0]), es[1..]);
    }
  }

  // ----- stored levels may be stale

  /** An unlock call on `h` is in progress. */
  predicate Unlocking(x: Proc, h: Hid) {
    || h in x.leaving
    || ((x.pc.Downgrade? || x.pc.FreePendingReserved? || x.pc.FreeAll?) && x.pc.h == h)
  }

  /** The stored level is the one the user relies on exactly when no unlock call on
      the handle is in progress; otherwise it is too high. */
  lemma StoredLevelExactlyOutsideUnlock(s: System, p: Pid, h: Hid)
    requires Reachable(s) && p in s && h in s[p].file
    ensures s[p].file[h] == Relied(s[p], h) <==> !Unlocking(s[p], h)
    ensures s[p].file[h] >= Relied(s[p], h)
  {
    ReachableInv(s);
    assert ProcInv(s[p]);
  }

  /** So the stored levels are safe between any two handles that are not being unlocked. */
  lemma StoredLevelsAreSafe(s: System, p: Pid, h: Hid, q: Pid, g: Hid)
    requires Reachable(s) && TwoHandles(s, p, h, q, g) && !Unlocking(s[p], h) && !Unlocking(s[q], g)
    ensures s[p].file[h] == EXCLUSIVE ==> s[q].file[g] == NO_LOCK
    ensures !(s[p].file[h] == RESERVED && s[q].file[g] == RESERVED)
    ensures !(s[p].file[h] >= PENDING && s[q].file[g] >= PENDING)
  {
    EveryReachableStateIsSafe(s);
    StoredLevelExactlyOutsideUnlock(s, p, h);
    StoredLevelExactlyOutsideUnlock(s, q, g);
  }

  lemma {:induction false} RunSnoc(s: System, es: seq<Event>, e: Event)
    requires IsRun(s, es) && Enabled(RunFrom(s, es), e)
    ensures IsRun(s, es + [e]) && RunFrom(s, es + [e]) == Apply(RunFrom(s, es), e)
    decreases |es|
  {
    if es == [] {
      assert [] + [e] == [e] && [e][1..] == [];
    } else {
      RunSnoc(Apply(s, es[0]), es[1..], e);
      assert (es + [e])[1..] == es[1..] + [e];
    }
  }

  /** Nobody else holds a POSIX lock. */
  predicate Alone(s: System, p: Pid) {
    p in s && forall q :: q in s && q != p ==> s[q].held == NOTHING_HELD
  }

  /** Extends a run by one granted `fcntl` of a process that is alone. */
  lemma Grant(s: System, es: seq<Event>, p: Pid)
    requires IsRun(s, es) && Alone(RunFrom(s, es), p) && !RunFrom(s, es)[p].pc.Idle?
    ensures var t := RunFrom(s, es);
            && IsRun(s, es + [Fcntl(p, true)])
            && RunFrom(s, es + [Fcntl(p, true)]) == t[p := AfterFcntl(t[p], true)]
            && Alone(RunFrom(s, es + [Fcntl(p, true)]), p)
  {
    RunSnoc(s, es, Fcntl(p, true));
  }

  function AtExclusive(x: Proc, h: Hid): Proc {
    x.(file := x.file[h := EXCLUSIVE], cnt := 1, nLock := 1, locktype := EXCLUSIVE, held := Held(Write, Free, Write))
  }

  predicate Unlocked(x: Proc, h: Hid) {
    && h in x.file && h !in x.leaving && x.file[h] == NO_LOCK && x.pc.Idle?
    && x.cnt == 0 && x.nLock == 0 && x.locktype == NO_LOCK && x.held == NOTHING_HELD
  }

  function AtShared(x: Proc, h: Hid): Proc {
    x.(file := x.file[h := SHARED], cnt := 1, nLock := 1, locktype := SHARED, held := Held(Free, Free, Read))
  }

  /** With nobody in the way, SHARED is granted ... */
  lemma CanReachShared(s: System, es: seq<Event>, p: Pid, h: Hid) returns (fs: seq<Event>)
    requires IsRun(s, es) && Alone(RunFrom(s, es), p) && Unlocked(RunFrom(s, es)[p], h)
    ensures IsRun(s, fs)
    ensures var t := RunFrom(s, es); RunFrom(s, fs) == t[p := AtShared(t[p], h)]
  {
    var t := RunFrom(s, es);
    RunSnoc(s, es, LockCall(p, h, SHARED));
    fs := es + [LockCall(p, h, SHARED)];
    Grant(s, fs, p); fs := fs + [Fcntl(p, true)];
    Grant(s, fs, p); fs := fs + [Fcntl(p, true)];
    Grant(s, fs, p); fs := fs + [Fcntl(p, true)];
    assert RunFrom(s, fs) == t[p := RunFrom(s, fs)[p]];
  }

  /** ... and then EXCLUSIVE. */
  lemma CanReachExclusive(s: System, es: seq<Event>, p: Pid, h: Hid) returns (fs: seq<Event>)
    requires IsRun(s, es) && Alone(RunFrom(s, es), p) && Unlocked(RunFrom(s, es)[p], h)
    ensures IsRun(s, fs)
    ensures var t := RunFrom(s, es); RunFrom(s, fs) == t[p := AtExclusive(t[p], h)]
  {
    var t := RunFrom(s, es);
    fs := CanReachShared(s, es, p, h);
    RunSnoc(s, fs, LockCall(p, h, EXCLUSIVE));
    fs := fs + [LockCall(p, h, EXCLUSIVE)];
    Grant(s, fs, p); fs := fs + [Fcntl(p, true)];
    Grant(s, fs, p); fs := fs + [Fcntl(p, true)];
    assert t[p].file[h := SHARED][h := EXCLUSIVE] == t[p].file[h := EXCLUSIVE];
    assert RunFrom(s, fs) == t[p := RunFrom(s, fs)[p]];
  }

  /** The holder releases everything and leaves the mutex. */
  lemma CanRelease(s: System, es: seq<Event>, p: Pid, h: Hid, x: Proc) returns (fs: seq<Event>)
    requires IsRun(s, es) && Alone(RunFrom(s, es), p)
    requires Unlocked(x, h) && RunFrom(s, es)[p] == AtExclusive(x, h)
    ensures IsRun(s, fs)
    ensures RunFrom(s, fs) == RunFrom(s, es)[p := Leave(x.(file := x.file[h := EXCLUSIVE]), h, NO_LOCK)]
  {
    var t := RunFrom(s, es);
    RunSnoc(s, es, UnlockCall(p, h, NO_LOCK));
    fs := es + [UnlockCall(p, h, NO_LOCK)];
    Grant(s, fs, p); fs := fs + [Fcntl(p, true)];
    Grant(s, fs, p); fs := fs + [Fcntl(p, true)];
    assert RunFrom(s, fs) == t[p := RunFrom(s, fs)[p]];
  }

  /** Two stored levels can both be EXCLUSIVE: the first holder has released its
      locks and left the mutex, but its handle has not been written yet. */
  lemma StoredLevelsCanOverlap() returns (s: System)
    ensures Reachable(s)
    ensures TwoHandles(s, 0, 0, 1, 0) && s[0].file[0] == EXCLUSIVE && s[1].file[0] == EXCLUSIVE
  {
    var x := Proc(map[0 := NO_LOCK], map[], 0, 0, NO_LOCK, NOTHING_HELD, Idle);
    var s0: System := map[0 := x, 1 := x];
    assert IsRun(s0, []) && RunFrom(s0, []) == s0 && Init(s0);
    var es := CanReachExclusive(s0, [], 0, 0);
    assert RunFrom(s0, es) == s0[0 := AtExclusive(x, 0)];
    es := CanRelease(s0, es, 0, 0, x);
    var y := Leave(x.(file := x.file[0 := EXCLUSIVE]), 0, NO_LOCK);
    assert RunFrom(s0, es)[0] == y && RunFrom(s0, es)[1] == x && y.held == NOTHING_HELD;
    es := CanReachExclusive(s0, es, 1, 0);
    s := RunFrom(s0, es);
    assert s[0] == y && s[1] == AtExclusive(x, 0);
  }

  // ----- unixCheckReservedLock

  /** The process's own record, or else `F_GETLK` on the reserved byte. */
  predicate CheckReservedLock(s: System, p: Pid)
    requires p in s
  {
    s[p].locktype > SHARED || exists q :: q in s && q != p && s[q].held.reserved != Free
  }

  /** No RESERVED handle goes unnoticed, and a positive answer means that some
      handle's stored level is above SHARED. */
  lemma CheckReservedLockIsSound(s: System, p: Pid)
    requires Reachable(s) && p in s && s[p].pc.Idle?
    ensures !CheckReservedLock(s, p) ==>
              forall q, h :: q in s && h in s[q].file ==> Relied(s[q], h) != RESERVED
    ensures CheckReservedLock(s, p) ==>
              exists q, h :: q in s && h in s[q].file && s[q].file[h] > SHARED
  {
    ReachableInv(s);
    forall q, h | q in s && h in s[q].file && Relied(s[q], h) == RESERVED
      ensures CheckReservedLock(s, p)
    {
      assert ProcInv(s[q]);
      ReliedBounds(s[q], h);
    }
    if CheckReservedLock(s, p) {
      var q :| q in s && (if q == p then s[p].locktype > SHARED else s[q].held.reserved != Free);
      assert ProcInv(s[q]);
      assert s[q].locktype > SHARED;
      var top :| top in s[q].file && Acct(s[q], top) == s[q].locktype;
      assert s[q].file[top] > SHARED;
    }
  }
}
