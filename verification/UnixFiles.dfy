/** `unixLock` and `unixUnlock` as they are written: straight-line code that calls
    `fcntl` and updates the records of one process, while other processes run
    between any two of its system calls.  Both are proved to be runs of the
    protocol of `FileLocks`, so everything proved there applies to them.
 */
module UnixFiles {
  import opened LockRegions
  import opened FileLocks

  datatype Rc = Ok | Busy | NoLfs

  /** What the kernel says besides "somebody else holds it". */
  datatype Errno = NoError | Einval | OtherError

  function FailureCode(e: Errno): Rc {
    if e.Einval? then NoLfs else Busy
  }

  /** Every refused `fcntl` of `p` met a conflicting lock, unless the kernel reported
      other errors. */
  ghost predicate Honest(s: System, es: seq<Event>, p: Pid, faulty: bool)
    requires IsRun(s, es)
    decreases |es|
  {
    es == [] || ((es[0] == Fcntl(p, false) ==> faulty || !Grantable(s, p)) && Honest(Apply(s, es[0]), es[1..], p, faulty))
  }

  lemma {:induction false} HonestSnoc(s: System, es: seq<Event>, e: Event, p: Pid, faulty: bool)
    requires IsRun(s, es) && Enabled(RunFrom(s, es), e) && Honest(s, es, p, faulty)
    requires e == Fcntl(p, false) ==> faulty || !Grantable(RunFrom(s, es), p)
    ensures IsRun(s, es + [e]) && RunFrom(s, es + [e]) == Apply(RunFrom(s, es), e) && Honest(s, es + [e], p, faulty)
    decreases |es|
  {
    if es == [] {
      assert [] + [e] == [e] && [e][1..] == [];
    } else {
      HonestSnoc(Apply(s, es[0]), es[1..], e, p, faulty);
      assert (es + [e])[1..] == es[1..] + [e];
    }
  }

  lemma {:induction false} HonestMore(s: System, es: seq<Event>, p: Pid)
    requires IsRun(s, es) && Honest(s, es, p, false)
    ensures Honest(s, es, p, true)
    decreases |es|
  {
    if es != [] { HonestMore(Apply(s, es[0]), es[1..], p); }
  }

  /** A handle whose unlock has left the mutex waits for its own store only. */
  lemma StillLeaving(s: System, e: Event, p: Pid, h: Hid)
    requires Inv(s) && Enabled(s, e) && p in s && h in s[p].leaving && h in s[p].file && e != Return(p, h)
    ensures var x := Apply(s, e)[p]; h in x.leaving && x.leaving[h] == s[p].leaving[h] && h in x.file
  {
    assert ProcInv(s[p]);
  }

  /** Some event is one of `p` itself. */
  ghost predicate OwnEvents(env: seq<Event>, p: Pid) {
    exists i :: 0 <= i < |env| && env[i].p == p
  }

  /** What `fcntl` answered to `p`, in order. */
  ghost function Answers(tr: seq<Event>, p: Pid): seq<bool> {
    if tr == [] then []
    else
      var e := tr[|tr| - 1];
      Answers(tr[..|tr| - 1], p) + if e.Fcntl? && e.p == p then [e.ok] else []
  }

  lemma AnswersSnoc(tr: seq<Event>, e: Event, p: Pid)
    ensures Answers(tr + [e], p) == Answers(tr, p) + if e.Fcntl? && e.p == p then [e.ok] else []
  {
    assert (tr + [e])[..|tr|] == tr;
  }

  /** Another handle of the process is in the way. */
  predicate Blocked(x: Proc, h: Hid, want: Level)
    requires h in x.file
  {
    x.file[h] != x.locktype && (x.locktype >= PENDING || want > SHARED)
  }

  /** What a request above the level of the handle asks the kernel and when it succeeds,
      for a process in state `x` that gets the answers `a`.  SHARED needs the PENDING
      byte, the range, and the release of the byte, unless the process shares already;
      RESERVED needs its byte; EXCLUSIVE needs the PENDING byte, if that is not held,
      and then the range, which is not asked for while other handles share. */
  ghost predicate Asked(x: Proc, h: Hid, want: Level, a: seq<bool>, ok: bool)
    requires h in x.file
  {
    if Blocked(x, h, want) then a == [] && !ok
    else if want == SHARED && (x.locktype == SHARED || x.locktype == RESERVED) then a == [] && ok
    else if want == SHARED then (a == [false] && !ok) || (|a| == 3 && a[0] && ok == a[1] && a[2])
    else if want == RESERVED then a == [ok]
    else if x.file[h] >= PENDING then if x.cnt > 1 then a == [] && !ok else a == [ok]
    else if x.cnt > 1 then |a| == 1 && !ok
    else (a == [false] && !ok) || a == [true, ok]
  }

  /** A refused request for EXCLUSIVE keeps PENDING once the byte has been granted. */
  predicate KeepsPending(x: Proc, h: Hid, want: Level, a: seq<bool>)
    requires h in x.file
  {
    want == EXCLUSIVE && !Blocked(x, h, want) && (x.file[h] >= PENDING || (a != [] && a[0]))
  }

  /** A handle at PENDING between calls means that the byte is write-locked. */
  lemma PendingIsHeld(s: System, p: Pid, h: Hid)
    requires Inv(s) && p in s && s[p].pc.Idle? && h in s[p].file && h !in s[p].leaving && s[p].file[h] == PENDING
    ensures s[p].locktype == PENDING && s[p].held.pending == Write
  {
    assert ProcInv(s[p]);
  }

  /** The levels of the handles after the call. */
  ghost function Levels(x: Proc, h: Hid, want: Level, a: seq<bool>, ok: bool): map<Hid, Level>
    requires h in x.file
  {
    if ok then x.file[h := want] else if KeepsPending(x, h, want, a) then x.file[h := PENDING] else x.file
  }

  predicate NeedsPending(x: Proc, h: Hid, want: Level)
    requires h in x.file
  {
    want == SHARED || (want == EXCLUSIVE && x.file[h] < PENDING)
  }

  /** The records of the process leave the decision to the kernel. */
  predicate Ready(x: Proc, h: Hid, want: Level)
    requires h in x.file
  {
    && !Blocked(x, h, want)
    && (want == SHARED ==> x.locktype != SHARED && x.locktype != RESERVED)
    && (want == EXCLUSIVE ==> x.cnt <= 1)
  }

  lemma WantIs(s: System, p: Pid, h: Hid, want: Level)
    requires Inv(s) && Enabled(s, LockCall(p, h, want)) && s[p].file[h] < want
    ensures want == SHARED || want == RESERVED || want == EXCLUSIVE
  {
    assert ProcInv(s[p]);
  }

  /** What the records left to the kernel, the kernel decides. */
  lemma KernelDecides(x: Proc, h: Hid, want: Level, ok: bool, a: seq<bool>)
    requires h in x.file && Ready(x, h, want) && (want == SHARED || want == RESERVED || want == EXCLUSIVE)
    requires a == (if NeedsPending(x, h, want) then [true] else []) + (if want == SHARED then [ok, true] else [ok])
    ensures Asked(x, h, want, a, ok)
    ensures KeepsPending(x, h, want, a) == (want == EXCLUSIVE)
  {}

  class UnixFiles {
    var sys: System

    /** The steps of `tr` lead from `s0` to the present state, with honest refusals of `p`. */
    ghost predicate Ran(s0: System, tr: seq<Event>, p: Pid, faulty: bool)
      reads this
    {
      IsRun(s0, tr) && RunFrom(s0, tr) == sys && Honest(s0, tr, p, faulty)
    }

    /** Other processes take the steps of `env` that they can take. */
    method Interfere(p: Pid, env: seq<Event>, ghost faulty: bool, ghost s0: System, ghost before: seq<Event>)
      returns (ghost tr: seq<Event>)
      requires Inv(sys) && p in sys && Ran(s0, before, p, faulty)
      modifies this
      ensures Inv(sys) && p in sys && sys[p] == old(sys)[p] && Ran(s0, tr, p, faulty)
      ensures before <= tr && Answers(tr, p) == Answers(before, p)
    {
      tr := before;
      for i := 0 to |env|
        invariant Inv(sys) && p in sys && sys[p] == old(sys)[p] && Ran(s0, tr, p, faulty)
        invariant before <= tr && Answers(tr, p) == Answers(before, p)
      {
        var e := env[i];
        if e.p != p && Enabled(sys, e) {
          HonestSnoc(s0, tr, e, p, faulty);
          AnswersSnoc(tr, e, p);
          ApplyKeepsInv(sys, e);
          sys := Apply(sys, e);
          tr := tr + [e];
        }
      }
    }

    /** One `fcntl(F_SETLK)`. */
    method SetLk(p: Pid, region: Region, kind: Kind, errno: Errno) returns (ok: bool)
      requires p in sys
      modifies this
      ensures ok == (errno.NoError? && forall q :: q in old(sys) && q != p ==> CompatibleOn(region, kind, old(sys)[q].held))
      ensures sys == old(sys)[p := if ok then old(sys)[p].(held := SetHeld(old(sys)[p].held, region, kind))
                                   else old(sys)[p]]
    {
      ok := errno.NoError? && forall q :: q in sys && q != p ==> CompatibleOn(region, kind, sys[q].held);
      sys := sys[p := if ok then sys[p].(held := SetHeld(sys[p].held, region, kind)) else sys[p]];
    }

    /** One `fcntl` of `p` has been made, with the assignments after it. */
    ghost predicate Stepped(s: System, p: Pid, ok: bool)
      reads this
    {
      Enabled(s, Fcntl(p, ok)) && sys == Apply(s, Fcntl(p, ok))
    }

    lemma Extend(s0: System, before: seq<Event>, s: System, p: Pid, ok: bool, faulty: bool)
      requires Inv(s) && IsRun(s0, before) && RunFrom(s0, before) == s && Honest(s0, before, p, faulty) && Stepped(s, p, ok)
      requires ok || faulty || !Grantable(s, p)
      ensures Inv(sys) && Ran(s0, before + [Fcntl(p, ok)], p, faulty)
      ensures Answers(before + [Fcntl(p, ok)], p) == Answers(before, p) + [ok]
    {
      AnswersSnoc(before, Fcntl(p, ok), p);
      HonestSnoc(s0, before, Fcntl(p, ok), p, faulty);
      ApplyKeepsInv(s, Fcntl(p, ok));
    }

    /** PENDING, which is needed before SHARED and before EXCLUSIVE, and the assignments
        that follow. */
    method PendingCall(p: Pid, h: Hid, want: Level, errno: Errno) returns (rc: Rc)
      requires Inv(sys) && p in sys && sys[p].pc == AskPending(h, want)
      modifies this
      ensures Stepped(old(sys), p, rc.Ok?) && p in sys
      ensures rc.Ok? == (errno.NoError? && Grantable(old(sys), p)) && (rc.NoLfs? ==> errno.Einval?)
    {
      assert ProcInv(sys[p]);
      var ok := SetLk(p, PendingByte, if want == SHARED then Read else Write, errno);
      var y := sys[p];
      if !ok {
        y, rc := y.(pc := Idle), FailureCode(errno);
      } else {
        rc := Ok;
        if want == SHARED {
          y := y.(pc := AskShared(h));
        } else if y.cnt > 1 {
          // another handle of this process still holds SHARED
          y := y.(file := y.file[h := PENDING], locktype := PENDING, pc := Idle);
        } else {
          y := y.(pc := AskMain(h, want));
        }
      }
      sys := sys[p := y];
    }

    method LockPendingByte(p: Pid, h: Hid, want: Level, errno: Errno, ghost faulty: bool, ghost s0: System, ghost before: seq<Event>)
      returns (rc: Rc, ghost tr: seq<Event>)
      requires Inv(sys) && Ran(s0, before, p, faulty) && p in sys && (errno.NoError? || faulty) && sys[p].pc == AskPending(h, want)
      modifies this
      ensures Inv(sys) && Ran(s0, tr, p, faulty) && p in sys
      ensures exists ok :: Stepped(old(sys), p, ok) && ok == rc.Ok?
      ensures before <= tr && Answers(tr, p) == Answers(before, p) + [rc.Ok?]
      ensures rc.NoLfs? ==> errno.Einval?
    {
      rc := PendingCall(p, h, want, errno);
      Extend(s0, before, old(sys), p, rc.Ok?, faulty);
      tr := before + [Fcntl(p, rc.Ok?)];
    }

    /** The read lock on the shared range. */
    method AskRange(p: Pid, h: Hid, errno: Errno, ghost faulty: bool, ghost s0: System, ghost before: seq<Event>)
      returns (s: bool, ghost tr: seq<Event>)
      requires Inv(sys) && Ran(s0, before, p, faulty) && p in sys && (errno.NoError? || faulty) && sys[p].pc == AskShared(h)
      modifies this
      ensures Inv(sys) && Ran(s0, tr, p, faulty) && p in sys && sys[p].pc == DropPending(h, s)
      ensures sys[p].file == old(sys)[p].file && sys[p].leaving == old(sys)[p].leaving
      ensures before <= tr && Answers(tr, p) == Answers(before, p) + [s]
      ensures s ==> errno.NoError?
    {
      s := SetLk(p, SharedRange, Read, errno);
      sys := sys[p := sys[p].(pc := DropPending(h, s))];
      assert Stepped(old(sys), p, s);
      Extend(s0, before, old(sys), p, s, faulty);
      tr := before + [Fcntl(p, s)];
    }

    /** The PENDING byte is dropped, and the handle shares if the range was granted. */
    method DropPendingByte(p: Pid, h: Hid, s: bool, ghost faulty: bool, ghost s0: System, ghost before: seq<Event>)
      returns (ghost tr: seq<Event>)
      requires Inv(sys) && Ran(s0, before, p, faulty) && p in sys && sys[p].pc == DropPending(h, s)
      modifies this
      ensures Inv(sys) && Ran(s0, tr, p, faulty) && p in sys && sys[p].pc.Idle?
      ensures sys[p].file == if s then old(sys)[p].file[h := SHARED] else old(sys)[p].file
      ensures sys[p].leaving == old(sys)[p].leaving
      ensures before <= tr && Answers(tr, p) == Answers(before, p) + [true]
    {
      var y := sys[p].(held := SetHeld(sys[p].held, PendingByte, Free), pc := Idle);
      if s {
        y := y.(file := y.file[h := SHARED], nLock := y.nLock + 1, cnt := 1, locktype := SHARED);
      }
      sys := sys[p := y];
      assert Stepped(old(sys), p, true);
      Extend(s0, before, old(sys), p, true, faulty);
      tr := before + [Fcntl(p, true)];
    }

    /** The read lock on the shared range, then the PENDING byte is dropped. */
    method LockSharedRange(p: Pid, h: Hid, env: seq<Event>, errno: Errno, ghost faulty: bool,
                           ghost s0: System, ghost before: seq<Event>)
      returns (rc: Rc, ghost tr: seq<Event>)
      requires Inv(sys) && Ran(s0, before, p, faulty) && p in sys && (errno.NoError? || faulty) && sys[p].pc == AskShared(h)
      modifies this
      ensures Inv(sys) && Ran(s0, tr, p, faulty) && p in sys && sys[p].pc.Idle?
      ensures sys[p].file == if rc.Ok? then old(sys)[p].file[h := SHARED] else old(sys)[p].file
      ensures sys[p].leaving == old(sys)[p].leaving
      ensures before <= tr && Answers(tr, p) == Answers(before, p) + [rc.Ok?, true]
      ensures rc.NoLfs? ==> errno.Einval?
    {
      var s;
      s, tr := AskRange(p, h, errno, faulty, s0, before);
      tr := Interfere(p, env, faulty, s0, tr);
      tr := DropPendingByte(p, h, s, faulty, s0, tr);
      rc := if s then Ok else FailureCode(errno);
    }

    /** The write lock on the reserved byte or on the shared range. */
    method LockMainRange(p: Pid, h: Hid, want: Level, errno: Errno, ghost faulty: bool, ghost s0: System, ghost before: seq<Event>)
      returns (rc: Rc, ghost tr: seq<Event>)
      requires Inv(sys) && Ran(s0, before, p, faulty) && p in sys && (errno.NoError? || faulty) && sys[p].pc == AskMain(h, want)
      modifies this
      ensures Inv(sys) && Ran(s0, tr, p, faulty) && p in sys && sys[p].pc.Idle?
      ensures sys[p].file == if rc.Ok? then old(sys)[p].file[h := want]
                             else if want == EXCLUSIVE then old(sys)[p].file[h := PENDING]
                             else old(sys)[p].file
      ensures sys[p].leaving == old(sys)[p].leaving
      ensures before <= tr && Answers(tr, p) == Answers(before, p) + [rc.Ok?]
      ensures rc.NoLfs? ==> errno.Einval?
    {
      assert ProcInv(sys[p]);
      var ok := SetLk(p, if want == RESERVED then ReservedByte else SharedRange, Write, errno);
      var y := sys[p].(pc := Idle);
      rc := if ok then Ok else FailureCode(errno);
      if rc.Ok? {
        y := y.(file := y.file[h := want], locktype := want);
      } else if want == EXCLUSIVE {
        y := y.(file := y.file[h := PENDING], locktype := PENDING);
      }
      sys := sys[p := y];
      assert Stepped(old(sys), p, ok);
      Extend(s0, before, old(sys), p, ok, faulty);
      tr := before + [Fcntl(p, ok)];
    }

    /** The lock that SHARED, or RESERVED and EXCLUSIVE, stand for. */
    method LockRange(p: Pid, h: Hid, want: Level, env: seq<Event>, env': seq<Event>, errno: Errno, ghost faulty: bool,
                     ghost s0: System, ghost before: seq<Event>)
      returns (rc: Rc, ghost tr: seq<Event>)
      requires Inv(sys) && Ran(s0, before, p, faulty) && p in sys && (errno.NoError? || faulty)
      requires sys[p].pc == if want == SHARED then AskShared(h) else AskMain(h, want)
      modifies this
      ensures Inv(sys) && Ran(s0, tr, p, faulty) && p in sys && sys[p].pc.Idle?
      ensures sys[p].file == if rc.Ok? then old(sys)[p].file[h := want]
                             else if want == EXCLUSIVE then old(sys)[p].file[h := PENDING]
                             else old(sys)[p].file
      ensures sys[p].leaving == old(sys)[p].leaving
      ensures before <= tr && Answers(tr, p) == Answers(before, p) + if want == SHARED then [rc.Ok?, true] else [rc.Ok?]
      ensures rc.NoLfs? ==> errno.Einval?
    {
      tr := Interfere(p, env, faulty, s0, before);
      if want == SHARED {
        rc, tr := LockSharedRange(p, h, env', errno, faulty, s0, tr);
      } else {
        rc, tr := LockMainRange(p, h, want, errno, faulty, s0, tr);
      }
    }

    /** A POSIX release or downgrade, which the kernel never refuses. */
    method Relax(p: Pid, region: Region, kind: Kind)
      requires p in sys
      modifies this
      ensures sys == old(sys)[p := old(sys)[p].(held := SetHeld(old(sys)[p].held, region, kind))]
    {
      sys := sys[p := sys[p].(held := SetHeld(sys[p].held, region, kind))];
    }

    /** What a request above the handle's level comes to before the lock that gives it
        its name: refused or granted by the records of the process alone, or, after the
        PENDING byte where that is needed, ready for the lock itself. */
    method StartLock(p: Pid, h: Hid, want: Level, env: seq<Event>, errno: Errno, ghost faulty: bool)
      returns (done: bool, rc: Rc, ghost tr: seq<Event>)
      requires Inv(sys) && Enabled(sys, LockCall(p, h, want)) && sys[p].file[h] < want && (errno.NoError? || faulty)
      modifies this
      ensures Inv(sys) && Ran(old(sys), tr, p, faulty) && p in sys && [LockCall(p, h, want)] <= tr
      ensures sys[p].leaving == old(sys)[p].leaving
      ensures !done ==> && sys[p].pc == (if want == SHARED then AskShared(h) else AskMain(h, want))
                        && sys[p].file == old(sys)[p].file
      ensures done ==> sys[p].pc.Idle?
      ensures done ==> Asked(old(sys)[p], h, want, Answers(tr, p), rc.Ok?)
      ensures done ==> sys[p].file == Levels(old(sys)[p], h, want, Answers(tr, p), rc.Ok?)
      ensures !done ==> Ready(old(sys)[p], h, want) && Answers(tr, p) == if NeedsPending(old(sys)[p], h, want) then [true] else []
      ensures rc.NoLfs? ==> errno.Einval?
    {
      ghost var s0, call := sys, LockCall(p, h, want);
      var x := sys[p];
      HonestSnoc(s0, [], call, p, faulty);
      ApplyKeepsInv(sys, call);
      tr := [call];
      if x.file[h] != x.locktype && (x.locktype >= PENDING || want > SHARED) {
        assert Apply(s0, call) == s0;
        return true, Busy, tr;
      }
      if want == SHARED && (x.locktype == SHARED || x.locktype == RESERVED) {
        sys := sys[p := x.(file := x.file[h := SHARED], cnt := x.cnt + 1, nLock := x.nLock + 1)];
        return true, Ok, tr;
      }
      if want == SHARED || (want == EXCLUSIVE && x.file[h] < PENDING) {
        sys := sys[p := x.(pc := AskPending(h, want))];
        ghost var granted;
        done, rc, granted, tr := PendingFirst(p, h, want, env, errno, faulty, s0, tr);
      } else if want == EXCLUSIVE && x.cnt > 1 {
        sys := sys[p := x.(file := x.file[h := PENDING], locktype := PENDING)];
        return true, Busy, tr;
      } else {
        sys := sys[p := x.(pc := AskMain(h, want))];
        return false, Ok, tr;
      }
    }

    /** The PENDING byte, and what it leads to. */
    method PendingFirst(p: Pid, h: Hid, want: Level, env: seq<Event>, errno: Errno, ghost faulty: bool,
                        ghost s0: System, ghost before: seq<Event>)
      returns (done: bool, rc: Rc, ghost granted: bool, ghost tr: seq<Event>)
      requires Inv(sys) && Ran(s0, before, p, faulty) && p in sys && sys[p].pc == AskPending(h, want)
      requires (want == SHARED || want == EXCLUSIVE) && (errno.NoError? || faulty)
      modifies this
      ensures Inv(sys) && Ran(s0, tr, p, faulty) && p in sys && before <= tr
      ensures !done ==> && sys[p].pc == (if want == SHARED then AskShared(h) else AskMain(h, want))
                        && sys[p].file == old(sys)[p].file
      ensures done ==> sys[p].pc.Idle? && !rc.Ok?
      ensures Answers(tr, p) == Answers(before, p) + [granted] && sys[p].leaving == old(sys)[p].leaving
      ensures done == (!granted || (want == EXCLUSIVE && old(sys)[p].cnt > 1))
      ensures done ==> sys[p].file == if granted then old(sys)[p].file[h := PENDING] else old(sys)[p].file
      ensures rc.NoLfs? ==> errno.Einval?
    {
      tr := Interfere(p, env, faulty, s0, before);
      rc, tr := LockPendingByte(p, h, want, errno, faulty, s0, tr);
      granted := rc.Ok?;
      done := !rc.Ok? || (want == EXCLUSIVE && sys[p].pc.Idle?);
      if done && rc.Ok? {
        rc := Busy;
      }
    }

    /** The call succeeds at once if the handle has the level.  Otherwise it makes the
        `fcntl` calls of `Asked`, succeeds if and only if `Asked` says so, and leaves the
        handles at `Levels`; a refusal by `fcntl` meets a conflicting lock or another error. */
    method UnixLock(p: Pid, h: Hid, want: Level, env: seq<seq<Event>>, errno: seq<Errno>)
      returns (rc: Rc, ghost tr: seq<Event>)
      requires Inv(sys) && |env| == 3 && |errno| == 2
      requires Enabled(sys, LockCall(p, h, want))
      modifies this
      ensures Inv(sys) && Ran(old(sys), tr, p, !errno[0].NoError? || !errno[1].NoError?)
      ensures p in sys && sys[p].pc.Idle?
      ensures old(sys)[p].file[h] >= want ==> rc.Ok? && tr == [] && sys[p].file == old(sys)[p].file
      ensures old(sys)[p].file[h] < want ==>
                && [LockCall(p, h, want)] <= tr
                && Asked(old(sys)[p], h, want, Answers(tr, p), rc.Ok?)
                && sys[p].file == Levels(old(sys)[p], h, want, Answers(tr, p), rc.Ok?)
      ensures old(sys)[p].file[h] < want && !rc.Ok? && KeepsPending(old(sys)[p], h, want, Answers(tr, p)) ==>
                sys[p].locktype == PENDING && sys[p].held.pending == Write
      ensures rc.NoLfs? ==> errno[0].Einval? || errno[1].Einval?
    {
      if sys[p].file[h] >= want {
        return Ok, [];
      }
      ghost var s0, faulty := sys, !errno[0].NoError? || !errno[1].NoError?;
      var done;
      done, rc, tr := StartLock(p, h, want, env[0], errno[0], faulty);
      WantIs(s0, p, h, want);
      if !done {
        rc, tr := FinishLock(p, h, want, env[1], env[2], errno[1], faulty, s0, tr);
      }
      if !rc.Ok? && KeepsPending(s0[p], h, want, Answers(tr, p)) {
        PendingIsHeld(sys, p, h);
      }
    }

    /** The lock itself, once the records have left it to the kernel. */
    method FinishLock(p: Pid, h: Hid, want: Level, env: seq<Event>, env': seq<Event>, errno: Errno, ghost faulty: bool,
                      ghost s0: System, ghost before: seq<Event>)
      returns (rc: Rc, ghost tr: seq<Event>)
      requires Inv(sys) && Ran(s0, before, p, faulty) && p in sys && (errno.NoError? || faulty)
      requires sys[p].pc == if want == SHARED then AskShared(h) else AskMain(h, want)
      requires p in s0 && h in s0[p].file && sys[p].file == s0[p].file && Ready(s0[p], h, want)
      requires want == SHARED || want == RESERVED || want == EXCLUSIVE
      requires Answers(before, p) == if NeedsPending(s0[p], h, want) then [true] else []
      modifies this
      ensures Inv(sys) && Ran(s0, tr, p, faulty) && p in sys && sys[p].pc.Idle? && before <= tr
      ensures sys[p].leaving == old(sys)[p].leaving
      ensures Asked(s0[p], h, want, Answers(tr, p), rc.Ok?)
      ensures sys[p].file == Levels(s0[p], h, want, Answers(tr, p), rc.Ok?)
      ensures rc.NoLfs? ==> errno.Einval?
    {
      rc, tr := LockRange(p, h, want, env, env', errno, faulty, s0, before);
      KernelDecides(s0[p], h, want, rc.Ok?, Answers(tr, p));
    }

    /** Frees PENDING and RESERVED together and gives up the count if asked to. */
    method UnlockHigh(p: Pid, h: Hid, to: Level, env: seq<Event>, ghost s0: System, ghost before: seq<Event>)
      returns (ghost tr: seq<Event>)
      requires Inv(sys) && Ran(s0, before, p, false) && p in sys && sys[p].pc == FreePendingReserved(h, to)
      modifies this
      ensures Inv(sys) && Ran(s0, tr, p, false) && before <= tr && p in sys && sys[p].file == old(sys)[p].file
      ensures sys[p].pc == FreeAll(h) || (sys[p].pc.Idle? && h in sys[p].leaving && sys[p].leaving[h] == to)
      ensures sys[p].pc.FreeAll? ==> to == NO_LOCK
    {
      tr := Interfere(p, env, false, s0, before);
      ghost var s1 := sys;
      assert ProcInv(s1[p]);
      Relax(p, PendingAndReserved, Free);
      var y := sys[p].(locktype := SHARED);
      if to == NO_LOCK {
        y := y.(cnt := y.cnt - 1);
        if y.cnt == 0 {
          y := y.(pc := FreeAll(h));
        } else {
          y := y.(nLock := y.nLock - 1, leaving := y.leaving[h := NO_LOCK], pc := Idle);
        }
      } else {
        y := y.(leaving := y.leaving[h := to], pc := Idle);
      }
      sys := sys[p := y];
      assert Stepped(s1, p, true);
      Extend(s0, tr, s1, p, true, false);
      tr := tr + [Fcntl(p, true)];
    }

    /** Frees the whole file if the last handle of the process is being released. */
    method UnlockLast(p: Pid, h: Hid, to: Level, env: seq<Event>, ghost s0: System, ghost before: seq<Event>)
      returns (ghost tr: seq<Event>)
      requires Inv(sys) && Ran(s0, before, p, false) && p in sys
      requires sys[p].pc == FreeAll(h) || (sys[p].pc.Idle? && h in sys[p].leaving && sys[p].leaving[h] == to)
      requires sys[p].pc.FreeAll? ==> to == NO_LOCK
      modifies this
      ensures Inv(sys) && Ran(s0, tr, p, false) && before <= tr && p in sys && sys[p].file == old(sys)[p].file
      ensures sys[p].pc.Idle? && h in sys[p].leaving && sys[p].leaving[h] == to
    {
      tr := before;
      if sys[p].pc.FreeAll? {
        tr := Interfere(p, env, false, s0, tr);
        ghost var s1 := sys;
        Relax(p, WholeFile, Free);
        var y := sys[p];
        sys := sys[p := y.(locktype := NO_LOCK, nLock := y.nLock - 1, leaving := y.leaving[h := NO_LOCK], pc := Idle)];
        assert Stepped(s1, p, true);
        Extend(s0, tr, s1, p, true, false);
        tr := tr + [Fcntl(p, true)];
      }
    }

    /** A read lock takes the place of the write lock on the shared range. */
    method ShareAgain(p: Pid, h: Hid, env: seq<Event>, ghost s0: System, ghost before: seq<Event>)
      returns (ghost tr: seq<Event>)
      requires Inv(sys) && Ran(s0, before, p, false) && p in sys && sys[p].pc == Downgrade(h)
      modifies this
      ensures Inv(sys) && Ran(s0, tr, p, false) && before <= tr && p in sys && sys[p].file == old(sys)[p].file
      ensures sys[p].pc == FreePendingReserved(h, SHARED)
    {
      tr := Interfere(p, env, false, s0, before);
      ghost var s1 := sys;
      Relax(p, SharedRange, Read);
      sys := sys[p := sys[p].(pc := FreePendingReserved(h, SHARED))];
      assert Stepped(s1, p, true);
      Extend(s0, tr, s1, p, true, false);
      tr := tr + [Fcntl(p, true)];
    }

    /** The mutex has been left: any process, also other threads of this one, may run. */
    method Overlap(p: Pid, h: Hid, env: seq<Event>, ghost faulty: bool, ghost s0: System, ghost before: seq<Event>)
      returns (ghost tr: seq<Event>)
      requires Inv(sys) && Ran(s0, before, p, faulty) && p in sys && h in sys[p].leaving && h in sys[p].file
      requires OwnEvents(env, p) ==> faulty
      modifies this
      ensures Inv(sys) && Ran(s0, tr, p, faulty) && before <= tr && p in sys
      ensures h in sys[p].leaving && sys[p].leaving[h] == old(sys)[p].leaving[h] && h in sys[p].file
      ensures !OwnEvents(env, p) ==> sys[p] == old(sys)[p]
    {
      tr := before;
      for i := 0 to |env|
        invariant Inv(sys) && Ran(s0, tr, p, faulty) && before <= tr && p in sys
        invariant h in sys[p].leaving && sys[p].leaving[h] == old(sys)[p].leaving[h] && h in sys[p].file
        invariant !OwnEvents(env, p) ==> sys[p] == old(sys)[p]
      {
        var e := env[i];
        if e != Return(p, h) && Enabled(sys, e) {
          StillLeaving(sys, e, p, h);
          HonestSnoc(s0, tr, e, p, faulty);
          ApplyKeepsInv(sys, e);
          sys := Apply(sys, e);
          tr := tr + [e];
        }
      }
    }

    /** Only now is the level stored. */
    method StoreLevel(p: Pid, h: Hid, to: Level, ghost faulty: bool, ghost s0: System, ghost before: seq<Event>)
      returns (ghost tr: seq<Event>)
      requires Inv(sys) && Ran(s0, before, p, faulty) && p in sys && h in sys[p].file
      requires h in sys[p].leaving && sys[p].leaving[h] == to
      modifies this
      ensures Inv(sys) && Ran(s0, tr, p, faulty) && before <= tr
      ensures p in sys && sys[p].pc == old(sys)[p].pc && sys[p].file == old(sys)[p].file[h := to]
    {
      ghost var back := Return(p, h);
      HonestSnoc(s0, before, back, p, faulty);
      ApplyKeepsInv(sys, back);
      sys := sys[p := sys[p].(file := sys[p].file[h := to], leaving := sys[p].leaving - {h})];
      tr := before + [back];
    }

    /** The call up to the release of the whole file. */
    method StartUnlock(p: Pid, h: Hid, to: Level, env: seq<Event>, env': seq<Event>) returns (ghost tr: seq<Event>)
      requires Inv(sys) && Enabled(sys, UnlockCall(p, h, to)) && sys[p].file[h] > to
      modifies this
      ensures Inv(sys) && Ran(old(sys), tr, p, false) && [UnlockCall(p, h, to)] <= tr
      ensures p in sys && sys[p].file == old(sys)[p].file && h in sys[p].file
      ensures sys[p].pc == FreeAll(h) || (sys[p].pc.Idle? && h in sys[p].leaving && sys[p].leaving[h] == to)
      ensures sys[p].pc.FreeAll? ==> to == NO_LOCK
    {
      ghost var s0, call := sys, UnlockCall(p, h, to);
      var x := sys[p];
      HonestSnoc(s0, [], call, p, false);
      ApplyKeepsInv(sys, call);
      tr := [call];
      assert ProcInv(x);
      if x.file[h] > SHARED {
        if to == SHARED {
          sys := sys[p := x.(pc := Downgrade(h))];
          tr := ShareAgain(p, h, env, s0, tr);
        } else {
          sys := sys[p := x.(pc := FreePendingReserved(h, to))];
        }
        tr := UnlockHigh(p, h, to, env', s0, tr);
      } else {
        var y := x.(cnt := x.cnt - 1);
        sys := sys[p := if y.cnt == 0 then y.(pc := FreeAll(h))
                        else y.(nLock := y.nLock - 1, leaving := y.leaving[h := NO_LOCK])];
      }
    }

    /** `env[3]` runs after the mutex has been left, when other threads of the process may
        also be in calls of their own; without such calls no other handle changes. */
    method UnixUnlock(p: Pid, h: Hid, to: Level, env: seq<seq<Event>>) returns (ghost tr: seq<Event>)
      requires Inv(sys) && |env| == 4
      requires Enabled(sys, UnlockCall(p, h, to))
      modifies this
      ensures Inv(sys) && Ran(old(sys), tr, p, OwnEvents(env[3], p))
      ensures if old(sys)[p].file[h] <= to then tr == [] else [UnlockCall(p, h, to)] <= tr
      ensures p in sys && h in sys[p].file && sys[p].file[h] == if old(sys)[p].file[h] <= to then old(sys)[p].file[h] else to
      ensures !OwnEvents(env[3], p) ==>
                && sys[p].pc.Idle?
                && sys[p].file == if old(sys)[p].file[h] <= to then old(sys)[p].file else old(sys)[p].file[h := to]
    {
      if sys[p].file[h] <= to {
        return [];
      }
      ghost var s0, faulty := sys, OwnEvents(env[3], p);
      tr := StartUnlock(p, h, to, env[0], env[1]);
      tr := UnlockLast(p, h, to, env[2], s0, tr);
      if faulty {
        HonestMore(s0, tr, p);
      }
      tr := Overlap(p, h, env[3], faulty, s0, tr);
      tr := StoreLevel(p, h, to, faulty, s0, tr);
    }
  }
}
