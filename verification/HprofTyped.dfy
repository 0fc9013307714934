module HprofTyped {
  // Values by their ranges.  The number of values of a type fixes how many bytes one
  // takes; with those widths, what is written as a value is read back as that value.

  import opened HprofHeap
  import opened HprofReader
  import opened HprofFormat
  import opened HprofDump
  import opened HprofLazy

  /** How many values a type has: ids of `n` bytes, 8, 16, 32 or 64 bits. */
  function Values(t: ValueType, n: nat): int {
    match t
    case Object => Pow256(n)
    case Boolean => 0x100
    case Byte => 0x100
    case Char => 0x1_0000
    case Short => 0x1_0000
    case Int => 0x1_0000_0000
    case Float => 0x1_0000_0000
    case Long => 0x1_0000_0000_0000_0000
    case Double => 0x1_0000_0000_0000_0000
  }

  ghost predicate InRange(t: ValueType, n: nat, v: int) {
    0 <= v < Values(t, n) && v < TWO_64
  }

  /** `w` bytes are just enough for `count` values. */
  ghost predicate JustEnough(w: nat, count: int) {
    Pow256(w) >= count && (w > 0 ==> Pow256(w - 1) < count)
  }

  lemma {:induction false} PowGrows(a: nat, b: nat)
    requires a <= b
    ensures Pow256(a) <= Pow256(b)
    decreases b
  {
    if a < b { PowGrows(a, b - 1); }
  }

  lemma EnoughIsUnique(w: nat, u: nat, count: int)
    requires JustEnough(w, count) && JustEnough(u, count)
    ensures w == u
  {
    if w < u {
      PowGrows(w, u - 1);
    } else if u < w {
      PowGrows(u, w - 1);
    }
  }

  /** The width of a type is just enough for its values, and exactly so. */
  lemma WidthIsEnough(t: ValueType, n: nat)
    ensures Pow256(SizeIn(t, n)) == Values(t, n)
    ensures JustEnough(SizeIn(t, n), Values(t, n))
  {
    PowersOf256();
    assert Pow256(3) == 0x100_0000;
    EightBytes();
    if n > 0 { assert Pow256(n) == 256 * Pow256(n - 1); }
  }

  lemma EightBytes()
    ensures Pow256(7) == 0x100_0000_0000_0000 && Pow256(8) == 0x1_0000_0000_0000_0000
  {
    PowersOf256();
    assert Pow256(5) == 256 * Pow256(4) && Pow256(6) == 256 * Pow256(5);
    assert Pow256(7) == 256 * Pow256(6) && Pow256(8) == 256 * Pow256(7);
  }

  /** The number of bytes for a value, by the range of its type. */
  ghost function Width(t: ValueType, n: nat): (w: nat)
    ensures JustEnough(w, Values(t, n))
  {
    WidthIsEnough(t, n);
    var w: nat :| JustEnough(w, Values(t, n));
    w
  }

  lemma WidthIs(t: ValueType, n: nat)
    ensures Width(t, n) == SizeIn(t, n)
  {
    WidthIsEnough(t, n);
    EnoughIsUnique(Width(t, n), SizeIn(t, n), Values(t, n));
  }

  lemma ValueBack(b: seq<byte>, pos: nat, t: ValueType, n: nat, v: int)
    requires InRange(t, n, v) && At(b, pos, BigEndian(Width(t, n), v))
    ensures ReadN(b, pos, SizeIn(t, n)) == Done(v, pos + SizeIn(t, n))
  {
    WidthIs(t, n);
    WidthIsEnough(t, n);
    ReadBack(b, pos, SizeIn(t, n), v);
  }

  // ----- the fields of an instance

  ghost predicate Typed(fs: seq<Field>, vs: seq<int>, n: nat) {
    |vs| == |fs| && forall i :: 0 <= i < |fs| ==> InRange(fs[i].typ, n, vs[i])
  }

  /** The values of the fields, one after the other. */
  ghost function Packed(fs: seq<Field>, vs: seq<int>, n: nat): seq<byte>
    requires |vs| == |fs|
    decreases |fs|
  {
    if fs == [] then [] else BigEndian(Width(fs[0].typ, n), vs[0]) + Packed(fs[1..], vs[1..], n)
  }

  /** Field `i` is read at the sum of the widths before it, and as its value. */
  lemma {:induction false} FieldBack(b: seq<byte>, pos: nat, fs: seq<Field>, vs: seq<int>, n: nat, i: nat)
    requires Typed(fs, vs, n) && At(b, pos, Packed(fs, vs, n)) && i < |fs|
    ensures ReadN(b, pos + Offset(fs, i, n), SizeIn(fs[i].typ, n))
         == Done(vs[i], pos + Offset(fs, i, n) + SizeIn(fs[i].typ, n))
    decreases |fs|
  {
    var p1 := pos + SizeIn(fs[0].typ, n);
    WidthIs(fs[0].typ, n);
    AtSplit(b, pos, BigEndian(Width(fs[0].typ, n), vs[0]), Packed(fs[1..], vs[1..], n), p1);
    if i == 0 {
      ValueBack(b, pos, fs[0].typ, n, vs[0]);
    } else {
      FieldBack(b, p1, fs[1..], vs[1..], n, i - 1);
      assert fs[1..][i - 1] == fs[i] && vs[1..][i - 1] == vs[i];
    }
  }

  lemma HoldsItsValue(v: View, fs: seq<Field>, vs: seq<int>, i: nat, y: Id, covered: bool)
    requires Typed(fs, vs, v.n) && At(v.data, 0, Packed(fs, vs, v.n))
    ensures Holds(v, 0, fs, i, y, covered) <==> i < |fs| && fs[i].typ.Object? && Excludes(v, fs[i]) == covered && vs[i] == y
  {
    if i < |fs| { FieldBack(v.data, 0, fs, vs, v.n, i); }
  }

  lemma {:induction false} RunsToTheEnd(v: View, h: Heap, x: Id, pos: nat, fs: seq<Field>, vs: seq<int>)
    requires Typed(fs, vs, v.n) && At(v.data, pos, Packed(fs, vs, v.n))
    ensures RunFields(v, h, x, pos, fs).Done?
    decreases |fs|
  {
    if fs != [] {
      var p1 := pos + SizeIn(fs[0].typ, v.n);
      WidthIs(fs[0].typ, v.n);
      AtSplit(v.data, pos, BigEndian(Width(fs[0].typ, v.n), vs[0]), Packed(fs[1..], vs[1..], v.n), p1);
      ValueBack(v.data, pos, fs[0].typ, v.n, vs[0]);
      RunsToTheEnd(v, AddSlot(h, x, fs[0], Excludes(v, fs[0]), vs[0]), x, p1, fs[1..], vs[1..]);
    }
  }

  /** Some object field has the value `y`. */
  ghost predicate HasValue(v: View, fs: seq<Field>, vs: seq<int>, y: Id, covered: bool)
    requires |vs| == |fs|
  {
    exists i :: 0 <= i < |fs| && fs[i].typ.Object? && vs[i] == y && Excludes(v, fs[i]) == covered
  }

  lemma SomeHoldsValue(v: View, fs: seq<Field>, vs: seq<int>, y: Id, covered: bool)
    requires Typed(fs, vs, v.n) && At(v.data, 0, Packed(fs, vs, v.n))
    ensures SomeHolds(v, 0, fs, y, covered) <==> HasValue(v, fs, vs, y, covered)
  {
    if SomeHolds(v, 0, fs, y, covered) {
      var i: nat :| Holds(v, 0, fs, i, y, covered);
      HoldsItsValue(v, fs, vs, i, y, covered);
    }
    if HasValue(v, fs, vs, y, covered) {
      var i :| 0 <= i < |fs| && fs[i].typ.Object? && vs[i] == y && Excludes(v, fs[i]) == covered;
      HoldsItsValue(v, fs, vs, i, y, covered);
    }
  }

  /** The field data of `a` are the values `vs` of its fields. */
  ghost predicate HoldsValues(h: Heap, a: Id, vs: seq<int>) {
    && a in h.fieldsData && Typed(LayoutOf(h, a), vs, h.idSize)
    && At(h.fieldsData[a].data, 0, Packed(LayoutOf(h, a), vs, h.idSize))
  }

  /** An instance with typed values is read to the end, and its edges are the values of
      its object fields: leak edges those of the uncovered ones, excluded edges those of
      the covered ones. */
  lemma EdgesAreValues(h: Heap, ms: seq<Matcher>, a: Id, vs: seq<int>, b: Id, covered: bool)
    requires HoldsValues(h, a, vs)
    ensures RunInstance(h, ms, a).Done?
    ensures FieldEdge(h, ms, a, b, covered) <==> HasValue(ViewOf(h, ms, a), LayoutOf(h, a), vs, b, covered)
  {
    RunsToTheEnd(ViewOf(h, ms, a), h, a, 0, LayoutOf(h, a), vs);
    SomeHoldsValue(ViewOf(h, ms, a), LayoutOf(h, a), vs, b, covered);
  }

  // ----- primitive fields

  function Primitives(h: Heap, x: Id): map<Id, Primitive> {
    if x in h.primitives then h.primitives[x] else map[]
  }

  /** Field `i` is the first primitive field of its name. */
  ghost predicate FirstOfName(fs: seq<Field>, i: int) {
    && 0 <= i < |fs| && !fs[i].typ.Object?
    && forall j :: 0 <= j < i ==> fs[j].typ.Object? || fs[j].name != fs[i].name
  }

  lemma SlotPrimitives(h: Heap, x: Id, f: Field, covered: bool, z: int)
    ensures Primitives(AddSlot(h, x, f, covered, z), x) ==
            if f.typ.Object? then Primitives(h, x) else Emplace(Primitives(h, x), f.name, Primitive(f.typ, z))
  {}

  lemma RunStep(v: View, h: Heap, x: Id, pos: nat, fs: seq<Field>, p1: nat, z: int, tail: seq<Field>)
    requires fs != [] && tail == fs[1..] && p1 == pos + SizeIn(fs[0].typ, v.n)
    ensures ReadN(v.data, pos, SizeIn(fs[0].typ, v.n)) == Done(z, p1) ==>
              RunFields(v, h, x, pos, fs) == RunFields(v, AddSlot(h, x, fs[0], Excludes(v, fs[0]), z), x, p1, tail)
  {}

  lemma {:induction false} PrimitiveStays(v: View, h: Heap, x: Id, pos: nat, fs: seq<Field>, name: Id)
    requires RunFields(v, h, x, pos, fs).Done? && name in Primitives(h, x)
    ensures var h' := RunFields(v, h, x, pos, fs).value;
            name in Primitives(h', x) && Primitives(h', x)[name] == Primitives(h, x)[name]
    decreases |fs|
  {
    if fs != [] {
      var p1, z, tail := pos + SizeIn(fs[0].typ, v.n), Value(v.data, pos, SizeIn(fs[0].typ, v.n)), fs[1..];
      RunStep(v, h, x, pos, fs, p1, z, tail);
      SlotPrimitives(h, x, fs[0], Excludes(v, fs[0]), z);
      PrimitiveStays(v, AddSlot(h, x, fs[0], Excludes(v, fs[0]), z), x, p1, tail, name);
    }
  }

  /** The primitive value kept for a name is that of its first field. */
  lemma {:induction false} PrimitiveBack(v: View, h: Heap, x: Id, pos: nat, fs: seq<Field>, vs: seq<int>, i: nat)
    requires Typed(fs, vs, v.n) && At(v.data, pos, Packed(fs, vs, v.n))
    requires FirstOfName(fs, i) && fs[i].name !in Primitives(h, x)
    ensures RunFields(v, h, x, pos, fs).Done?
    ensures var row := Primitives(RunFields(v, h, x, pos, fs).value, x);
            fs[i].name in row && row[fs[i].name] == Primitive(fs[i].typ, vs[i])
    decreases |fs|
  {
    var p1, h1 := pos + SizeIn(fs[0].typ, v.n), AddSlot(h, x, fs[0], Excludes(v, fs[0]), vs[0]);
    var tail, rest := fs[1..], vs[1..];
    FirstFieldBack(v.data, pos, fs, vs, v.n, p1, tail, rest);
    RunStep(v, h, x, pos, fs, p1, vs[0], tail);
    SlotPrimitives(h, x, fs[0], Excludes(v, fs[0]), vs[0]);
    if i == 0 {
      RunsToTheEnd(v, h1, x, p1, tail, rest);
      PrimitiveStays(v, h1, x, p1, tail, fs[0].name);
    } else {
      FirstOfTail(fs, i, tail);
      assert rest[i - 1] == vs[i];
      PrimitiveBack(v, h1, x, p1, tail, rest, i - 1);
    }
  }

  lemma FirstFieldBack(b: seq<byte>, pos: nat, fs: seq<Field>, vs: seq<int>, n: nat, p1: nat, tail: seq<Field>, rest: seq<int>)
    requires Typed(fs, vs, n) && fs != [] && At(b, pos, Packed(fs, vs, n))
    requires tail == fs[1..] && rest == vs[1..] && p1 == pos + SizeIn(fs[0].typ, n)
    ensures ReadN(b, pos, SizeIn(fs[0].typ, n)) == Done(vs[0], p1)
    ensures Typed(tail, rest, n) && At(b, p1, Packed(tail, rest, n))
  {
    WidthIs(fs[0].typ, n);
    AtSplit(b, pos, BigEndian(Width(fs[0].typ, n), vs[0]), Packed(tail, rest, n), p1);
    ValueBack(b, pos, fs[0].typ, n, vs[0]);
  }

  lemma FirstOfTail(fs: seq<Field>, i: int, tail: seq<Field>)
    requires FirstOfName(fs, i) && i > 0 && tail == fs[1..]
    ensures FirstOfName(tail, i - 1) && tail[i - 1] == fs[i] && (fs[0].typ.Object? || fs[0].name != fs[i].name)
  {}

  // ----- static fields and primitive arrays

  /** A static field written as a typed value is well formed, and refers to that value. */
  lemma StaticBack(n: nat, name: Id, t: ValueType, v: int)
    requires InRange(t, n, v) && Fits(n, name)
    ensures var s := Static(name, t, BigEndian(Width(t, n), v)); GoodStatic(n, s) && Value(s.value, 0, |s.value|) == v
  {
    WidthIs(t, n);
    var b := BigEndian(Width(t, n), v);
    assert b[0..0 + |b|] == b;
    ValueBack(b, 0, t, n, v);
  }

  ghost function Elements(t: ValueType, vs: seq<int>): seq<byte> {
    if vs == [] then [] else BigEndian(Width(t, 0), vs[0]) + Elements(t, vs[1..])
  }

  /** An array of primitive values takes as many bytes as the parser expects. */
  lemma {:induction false} ArrayBack(t: ValueType, vs: seq<int>)
    requires !t.Object?
    ensures |Elements(t, vs)| == |vs| * TypeSize(t)
  {
    if vs != [] {
      WidthIs(t, 0);
      ArrayBack(t, vs[1..]);
      assert |vs| * TypeSize(t) == TypeSize(t) + (|vs| - 1) * TypeSize(t);
    }
  }

  lemma ArrayIsGood(n: nat, a: Id, trace: seq<byte>, t: ValueType, vs: seq<int>)
    requires Fits(n, a) && |trace| == 4 && !t.Object? && |vs| < 0x1_0000_0000
    ensures GoodSub(n, PrimitiveArrayDump(a, trace, t, |vs|, Elements(t, vs)))
  {
    ArrayBack(t, vs);
  }

  // ----- roots

  /** What follows the object id in a root sub-record: a JNI reference, or serial numbers
      of the thread and the frame or stack trace. */
  function RootItems(t: RootType): seq<ValueType> {
    match t
    case JniGlobal => [Object]
    case JniLocal => [Int, Int]
    case JavaFrame => [Int, Int]
    case ThreadObject => [Int, Int]
    case JniMonitor => [Int, Int]
    case NativeStack => [Int]
    case ThreadBlock => [Int]
    case _ => []
  }

  ghost function Items(ts: seq<ValueType>, vs: seq<int>, n: nat): seq<byte>
    requires |ts| == |vs|
  {
    if ts == [] then [] else BigEndian(Width(ts[0], n), vs[0]) + Items(ts[1..], vs[1..], n)
  }

  lemma ItemsLength(ts: seq<ValueType>, vs: seq<int>, n: nat)
    requires |ts| == |vs| <= 2
    ensures |Items(ts, vs, n)| == (if |ts| > 0 then SizeIn(ts[0], n) else 0) + if |ts| > 1 then SizeIn(ts[1], n) else 0
  {
    if |ts| > 0 {
      WidthIs(ts[0], n);
      if |ts| > 1 { WidthIs(ts[1], n); }
    }
  }

  /** A root written as typed values is well formed, and the first number is the serial
      number that the parser stores. */
  lemma RootBack(n: nat, t: RootType, x: Id, vs: seq<int>)
    requires Fits(n, x) && |vs| == |RootItems(t)| && forall i :: 0 <= i < |vs| ==> InRange(RootItems(t)[i], n, vs[i])
    ensures var extra := Items(RootItems(t), vs, n);
            GoodSub(n, Root(t, x, extra)) && (RootItems(t) != [] && RootItems(t)[0].Int? ==> Serial(extra) == vs[0])
  {
    var ts := RootItems(t);
    ItemsLength(ts, vs, n);
    if ts != [] && ts[0].Int? {
      SerialBack(vs[0], Items(ts[1..], vs[1..], n), n);
    }
  }

  lemma SerialBack(v: int, rest: seq<byte>, n: nat)
    requires InRange(Int, n, v)
    ensures Serial(BigEndian(Width(Int, n), v) + rest) == v
  {
    WidthIs(Int, n);
    var b := BigEndian(4, v) + rest;
    assert b[0..0 + 4] == BigEndian(4, v);
    ValueBack(b, 0, Int, n, v);
  }
}
