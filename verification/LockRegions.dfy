module LockRegions {
  // POSIX advisory record locks, first byte by byte and then on the three byte
  // regions that the database file-lock protocol uses.
  //
  // A byte-level kernel maps a process and a byte to what that process holds on
  // the byte.  The protocol only ever locks a handful of ranges, so the rest of
  // the project works with one `Held` record per process; the lemma
  // `RegionsRefineBytes` says that nothing is lost by doing so.

  type Pid = int

  /** What one process holds on one byte. */
  datatype Kind = Free | Read | Write

  const PENDING_BYTE := 0x40000000
  const RESERVED_BYTE := PENDING_BYTE + 1
  const SHARED_FIRST := PENDING_BYTE + 2
  const SHARED_SIZE := 510

  /** The ranges that appear in a `struct flock` of the protocol. */
  datatype Region = PendingByte | ReservedByte | SharedRange | PendingAndReserved | WholeFile

  function Start(r: Region): int {
    match r
    case PendingByte => PENDING_BYTE
    case ReservedByte => RESERVED_BYTE
    case SharedRange => SHARED_FIRST
    case PendingAndReserved => PENDING_BYTE
    case WholeFile => 0
  }

  /** A length of zero means "up to the end of the file, however large". */
  function Len(r: Region): int {
    match r
    case PendingByte => 1
    case ReservedByte => 1
    case SharedRange => SHARED_SIZE
    case PendingAndReserved => 2
    case WholeFile => 0
  }

  /** Two processes may hold `a` and `b` on the same byte at the same time. */
  predicate Compatible(a: Kind, b: Kind) {
    a.Free? || b.Free? || (a.Read? && b.Read?)
  }

  // ----- byte level

  type ByteLocks = (Pid, int) -> Kind

  predicate InRange(r: Region, b: int) {
    Start(r) <= b && (Len(r) == 0 || b < Start(r) + Len(r))
  }

  /** `F_SETLK` may be granted: no byte of the range is held by another process
      in a conflicting way.  Locks of the same process never conflict. */
  ghost predicate BytesGrantable(k: ByteLocks, p: Pid, r: Region, kind: Kind) {
    forall q: Pid, b: int {:trigger k(q, b)} :: q != p && InRange(r, b) ==> Compatible(kind, k(q, b))
  }

  /** A granted `F_SETLK` overrides whatever the process held on the range. */
  ghost function SetBytes(k: ByteLocks, p: Pid, r: Region, kind: Kind): ByteLocks {
    (q: Pid, b: int) => if q == p && InRange(r, b) then kind else k(q, b)
  }

  // ----- region level

  datatype Held = Held(pending: Kind, reserved: Kind, shared: Kind)

  const NOTHING_HELD := Held(Free, Free, Free)

  predicate Touches(r: Region, part: Region) {
    r == part || r.WholeFile? || (r.PendingAndReserved? && !part.SharedRange?)
  }

  function SetHeld(h: Held, r: Region, kind: Kind): Held {
    Held(
      if Touches(r, PendingByte) then kind else h.pending,
      if Touches(r, ReservedByte) then kind else h.reserved,
      if Touches(r, SharedRange) then kind else h.shared)
  }

  predicate CompatibleOn(r: Region, kind: Kind, other: Held) {
    && (Touches(r, PendingByte) ==> Compatible(kind, other.pending))
    && (Touches(r, ReservedByte) ==> Compatible(kind, other.reserved))
    && (Touches(r, SharedRange) ==> Compatible(kind, other.shared))
  }

  ghost function Regions(k: ByteLocks, p: Pid): Held {
    Held(k(p, PENDING_BYTE), k(p, RESERVED_BYTE), k(p, SHARED_FIRST))
  }

  /** Every process holds the same thing on all 510 bytes of the shared range and
      nothing outside the three regions. */
  ghost predicate Uniform(k: ByteLocks) {
    forall p: Pid, b: int {:trigger k(p, b)} ::
      if InRange(SharedRange, b) then k(p, b) == k(p, SHARED_FIRST)
      else b != PENDING_BYTE && b != RESERVED_BYTE ==> k(p, b) == Free
  }

  lemma GrantableIffCompatible(k: ByteLocks, p: Pid, r: Region, kind: Kind)
    requires Uniform(k)
    ensures BytesGrantable(k, p, r, kind)
       <==> forall q: Pid :: q != p ==> CompatibleOn(r, kind, Regions(k, q))
  {
    if BytesGrantable(k, p, r, kind) {
      forall q: Pid | q != p ensures CompatibleOn(r, kind, Regions(k, q)) {
        assert InRange(r, PENDING_BYTE) <==> Touches(r, PendingByte);
        assert InRange(r, RESERVED_BYTE) <==> Touches(r, ReservedByte);
        assert InRange(r, SHARED_FIRST) <==> Touches(r, SharedRange);
      }
    } else {
      var q: Pid, b: int :| q != p && InRange(r, b) && !Compatible(kind, k(q, b));
      assert !CompatibleOn(r, kind, Regions(k, q));
    }
  }

  /** The region-level kernel refines the byte-level one: a request on one of the
      protocol's ranges is granted by the bytes exactly when it is granted by the
      regions, a granted request has the same effect on both, and the shape that
      makes the regions a faithful view is kept. */
  lemma RegionsRefineBytes(k: ByteLocks, p: Pid, r: Region, kind: Kind)
    requires Uniform(k)
    requires r.WholeFile? ==> kind.Free?
    ensures BytesGrantable(k, p, r, kind)
       <==> forall q: Pid :: q != p ==> CompatibleOn(r, kind, Regions(k, q))
    ensures Uniform(SetBytes(k, p, r, kind))
    ensures forall q: Pid ::
              Regions(SetBytes(k, p, r, kind), q)
              == if q == p then SetHeld(Regions(k, p), r, kind) else Regions(k, q)
  {
    GrantableIffCompatible(k, p, r, kind);
    var k' := SetBytes(k, p, r, kind);
    forall q: Pid, b: int
      ensures if InRange(SharedRange, b) then k'(q, b) == k'(q, SHARED_FIRST)
              else b != PENDING_BYTE && b != RESERVED_BYTE ==> k'(q, b) == Free
    {
      assert k(q, b) == k(q, b) && k(q, SHARED_FIRST) == k(q, SHARED_FIRST);
    }
  }
}
