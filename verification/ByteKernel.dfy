module ByteKernel {
  // The lock protocol on a kernel that keeps its locks byte by byte.
  //
  // The processes are those of `FileLocks`, but whether an `fcntl` may be granted is
  // decided by the bytes that the other processes hold, and a granted one changes
  // bytes.  Every run of either system is a run of the other.

  import opened LockRegions
  import opened FileLocks

  /** `Enabled`, with the kernel's decision made on bytes. */
  ghost predicate ByteEnabled(s: System, k: ByteLocks, e: Event) {
    match e
    case Fcntl(p, ok) =>
      && p in s && !s[p].pc.Idle?
      && if ok then MayFail(s[p].pc) ==> BytesGrantable(k, p, NextRegion(s[p].pc), NextKind(s[p].pc))
         else MayFail(s[p].pc)
    case _ => Enabled(s, e)
  }

  /** The records of the processes after a step. */
  ghost function Records(s: System, k: ByteLocks, e: Event): System
    requires ByteEnabled(s, k, e)
  {
    match e
    case Fcntl(p, ok) => s[p := AfterFcntl(s[p], ok)]
    case _ => Apply(s, e)
  }

  /** The bytes after a step. */
  ghost function Kernel(s: System, k: ByteLocks, e: Event): ByteLocks
    requires ByteEnabled(s, k, e)
  {
    match e
    case Fcntl(p, ok) => if ok then SetBytes(k, p, NextRegion(s[p].pc), NextKind(s[p].pc)) else k
    case _ => k
  }

  ghost predicate IsByteRun(s: System, k: ByteLocks, es: seq<Event>)
    decreases |es|
  {
    es == [] || (ByteEnabled(s, k, es[0]) && IsByteRun(Records(s, k, es[0]), Kernel(s, k, es[0]), es[1..]))
  }

  ghost function ByteRunFrom(s: System, k: ByteLocks, es: seq<Event>): (System, ByteLocks)
    requires IsByteRun(s, k, es)
    decreases |es|
  {
    if es == [] then (s, k) else ByteRunFrom(Records(s, k, es[0]), Kernel(s, k, es[0]), es[1..])
  }

  /** The regions that a process's record says it holds are those its bytes show. */
  ghost predicate Shown(s: System, k: ByteLocks, p: Pid) {
    Regions(k, p) == if p in s then s[p].held else NOTHING_HELD
  }

  ghost predicate Agrees(s: System, k: ByteLocks) {
    Uniform(k) && forall p: Pid {:trigger Shown(s, k, p)} :: Shown(s, k, p)
  }

  lemma GrantedAlike(s: System, k: ByteLocks, p: Pid)
    requires Agrees(s, k) && p in s && !s[p].pc.Idle?
    ensures BytesGrantable(k, p, NextRegion(s[p].pc), NextKind(s[p].pc)) <==> Grantable(s, p)
  {
    var r, kind := NextRegion(s[p].pc), NextKind(s[p].pc);
    GrantableIffCompatible(k, p, r, kind);
    forall q: Pid | q != p
      ensures CompatibleOn(r, kind, Regions(k, q)) <==> q !in s || CompatibleOn(r, kind, s[q].held)
    {
      assert Shown(s, k, q);
    }
  }

  /** One step: enabled alike, and records and bytes agree afterwards. */
  lemma StepAlike(s: System, k: ByteLocks, e: Event)
    requires Agrees(s, k)
    ensures ByteEnabled(s, k, e) <==> Enabled(s, e)
    ensures Enabled(s, e) ==> Records(s, k, e) == Apply(s, e) && Agrees(Apply(s, e), Kernel(s, k, e))
  {
    if e.Fcntl? && e.p in s && !s[e.p].pc.Idle? {
      GrantedAlike(s, k, e.p);
    }
    if Enabled(s, e) {
      if e.Fcntl? {
        RegionsRefineBytes(k, e.p, NextRegion(s[e.p].pc), NextKind(s[e.p].pc));
      }
      var s', k' := Apply(s, e), Kernel(s, k, e);
      forall p: Pid ensures Shown(s', k', p) {
        assert Shown(s, k, p);
        HeldAfter(s, e);
      }
    }
  }

  /** Only an `fcntl` that is granted changes what a process holds. */
  lemma HeldAfter(s: System, e: Event)
    requires Enabled(s, e)
    ensures var x, y := s[e.p], Apply(s, e)[e.p];
            y.held == if e.Fcntl? && e.ok then SetHeld(x.held, NextRegion(x.pc), NextKind(x.pc)) else x.held
  {}

  /** Every run on regions is a run on bytes and the other way round, and they end alike. */
  lemma {:induction false} RunsAlike(s: System, k: ByteLocks, es: seq<Event>)
    requires Agrees(s, k)
    ensures IsByteRun(s, k, es) <==> IsRun(s, es)
    ensures IsRun(s, es) ==>
              ByteRunFrom(s, k, es).0 == RunFrom(s, es) && Agrees(RunFrom(s, es), ByteRunFrom(s, k, es).1)
    decreases |es|
  {
    if es != [] {
      StepAlike(s, k, es[0]);
      if Enabled(s, es[0]) {
        RunsAlike(Apply(s, es[0]), Kernel(s, k, es[0]), es[1..]);
      }
    }
  }

  /** No two processes hold a byte in conflicting ways. */
  ghost predicate NoConflict(k: ByteLocks) {
    forall p: Pid, q: Pid, b: int {:trigger k(p, b), k(q, b)} :: p != q ==> Compatible(k(p, b), k(q, b))
  }

  lemma RegionsTogether(s: System, k: ByteLocks)
    requires Agrees(s, k) && Inv(s)
    ensures NoConflict(k)
  {
    forall p: Pid, q: Pid, b: int | p != q ensures Compatible(k(p, b), k(q, b)) {
      assert Shown(s, k, p) && Shown(s, k, q);
      assert p in s && q in s ==> HeldTogether(s[p].held, s[q].held);
      if InRange(SharedRange, b) {
        assert k(p, b) == k(p, SHARED_FIRST) && k(q, b) == k(q, SHARED_FIRST);
      }
    }
  }

  /** Safety on bytes: after any run of any processes from open handles and no lock on
      any byte, the levels exclude each other, no byte is held in conflicting ways, and
      the bytes are those of the recorded levels. */
  lemma EveryByteRunIsSafe(s0: System, k0: ByteLocks, es: seq<Event>)
    requires Init(s0) && (forall p: Pid, b: int :: k0(p, b) == Free) && IsByteRun(s0, k0, es)
    ensures var (s, k) := ByteRunFrom(s0, k0, es); Reachable(s) && Safe(s) && Agrees(s, k) && NoConflict(k)
  {
    forall p: Pid ensures Shown(s0, k0, p) {}
    RunsAlike(s0, k0, es);
    var (s, k) := ByteRunFrom(s0, k0, es);
    assert Reachable(s);
    EveryReachableStateIsSafe(s);
    ReachableInv(s);
    RegionsTogether(s, k);
  }
}
