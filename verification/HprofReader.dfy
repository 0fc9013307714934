/** Big-endian numbers and the byte reader (`reader::Reader`). */
module HprofReader {
  import opened HprofHeap

  /** A read that may run off the end of the buffer, which is fatal. */
  datatype Parsed<+T> = Fatal | Done(value: T, pos: nat)

  const TWO_64 := 0x1_0000_0000_0000_0000

  /** One turn of the shift-and-or loop of `Read`, in 64 bits. */
  function Shift(v: int, c: byte): int {
    (v * 256 + c) % TWO_64
  }

  /** What the loop has accumulated after `n` bytes from position `pos`. */
  function Value(b: seq<byte>, pos: nat, n: nat): int
    requires pos + n <= |b|
  {
    if n == 0 then 0 else Shift(Value(b, pos, n - 1), b[pos + n - 1])
  }

  function ReadN(b: seq<byte>, pos: nat, n: nat): Parsed<int> {
    if pos + n <= |b| then Done(Value(b, pos, n), pos + n) else Fatal
  }

  function Take(b: seq<byte>, pos: nat, n: nat): Parsed<seq<byte>> {
    if pos + n <= |b| then Done(b[pos..pos + n], pos + n) else Fatal
  }

  // ----- the inverse of reading

  function Pow256(n: nat): (p: int)
    ensures p >= 1
  {
    if n == 0 then 1 else 256 * Pow256(n - 1)
  }

  function BigEndian(n: nat, v: int): (s: seq<byte>)
    ensures |s| == n
  {
    if n == 0 then [] else BigEndian(n - 1, v / 256) + [v % 256]
  }

  /** The bytes `e` stand at position `pos` of `b`. */
  ghost predicate At(b: seq<byte>, pos: nat, e: seq<byte>) {
    pos + |e| <= |b| && forall i {:trigger e[i]} :: 0 <= i < |e| ==> b[pos + i] == e[i]
  }

  lemma AtSplit(b: seq<byte>, pos: nat, e: seq<byte>, f: seq<byte>, next: nat)
    requires At(b, pos, e + f) && next == pos + |e|
    ensures At(b, pos, e) && At(b, next, f)
  {
    forall i {:trigger e[i]} | 0 <= i < |e| ensures b[pos + i] == e[i] {
      assert (e + f)[i] == e[i];
    }
    forall i {:trigger f[i]} | 0 <= i < |f| ensures b[next + i] == f[i] {
      assert (e + f)[|e| + i] == f[i];
    }
  }

  lemma TakeBack(b: seq<byte>, pos: nat, e: seq<byte>)
    requires At(b, pos, e)
    ensures Take(b, pos, |e|) == Done(e, pos + |e|)
  {
    assert b[pos..pos + |e|] == e;
  }

  /** `v` can be stored in `n` bytes and held in 64 bits. */
  predicate Fits(n: nat, v: int) {
    0 <= v < Pow256(n) && v < TWO_64
  }

  lemma PowersOf256()
    ensures Pow256(1) == 0x100 && Pow256(2) == 0x1_0000 && Pow256(4) == 0x1_0000_0000
  {
    assert Pow256(3) == 0x100_0000;
  }

  /** A number that fits is read back as itself. */
  lemma {:induction false} ReadBack(b: seq<byte>, pos: nat, n: nat, v: int)
    requires Fits(n, v) && At(b, pos, BigEndian(n, v))
    ensures ReadN(b, pos, n) == Done(v, pos + n)
  {
    if n > 0 {
      AtSplit(b, pos, BigEndian(n - 1, v / 256), [v % 256], pos + (n - 1));
      ReadBack(b, pos, n - 1, v / 256);
      assert b[pos + (n - 1)] == [v % 256][0];
    }
  }

  class Reader {
    const buffer: seq<byte>
    var cursor: nat

    constructor (source: seq<byte>)
      ensures buffer == source && cursor == 0
    {
      buffer, cursor := source, 0;
    }

    /** False stands for the fatal exit "reach the end of buffer". */
    method Read(size: nat) returns (ok: bool, ret: int)
      requires cursor <= |buffer|
      modifies this
      ensures ok ==> ReadN(buffer, old(cursor), size) == Done(ret, cursor) && cursor <= |buffer|
      ensures !ok ==> ReadN(buffer, old(cursor), size).Fatal?
    {
      ret := 0;
      ghost var start := cursor;
      for i := 0 to size
        invariant cursor == start + i <= |buffer| && ret == Value(buffer, start, i)
      {
        if cursor >= |buffer| {
          return false, ret;
        }
        ret := Shift(ret, buffer[cursor]);
        cursor := cursor + 1;
      }
      ok := true;
    }

    method Extract(size: nat) returns (ok: bool, ret: seq<byte>)
      requires cursor <= |buffer|
      modifies this
      ensures ok ==> Take(buffer, old(cursor), size) == Done(ret, cursor) && cursor <= |buffer|
      ensures !ok ==> Take(buffer, old(cursor), size).Fatal?
    {
      cursor := cursor + size;
      if cursor > |buffer| {
        return false, [];
      }
      return true, buffer[cursor - size..cursor];
    }

    method Skip(size: nat) returns (ok: bool)
      requires cursor <= |buffer|
      modifies this
      ensures ok == (old(cursor) + size <= |buffer|)
      ensures cursor == old(cursor) + size
    {
      cursor := cursor + size;
      ok := cursor <= |buffer|;
    }
  }
}
