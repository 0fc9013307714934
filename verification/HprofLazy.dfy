/** The pass over the instances and over the GC roots that follows the parse
    (`LazyParse`): it decodes instance fields along the superclass chain, applies
    the exclusion matchers and builds the leak reference graph.
 */
module HprofLazy {
  import opened HprofHeap
  import opened HprofReader
  import opened HprofFormat

  // ----- inheritance

  function SuperOf(inh: map<Id, Id>, c: Id): Option<Id> {
    if c in inh && inh[c] != 0 then Some(inh[c]) else None
  }

  /** The class and its superclasses, nearest first.  A class is looked up at most
      once, so this is defined for every table. */
  function Chain(inh: map<Id, Id>, c: Id): seq<Id>
    decreases inh.Keys
  {
    if SuperOf(inh, c).Some? then [c] + Chain(inh - {c}, inh[c]) else [c]
  }

  /** Inheritance without cycles: every superclass has a smaller rank. */
  ghost predicate Ranked(inh: map<Id, Id>, rank: Id -> nat) {
    forall c :: c in inh && inh[c] != 0 ==> rank(inh[c]) < rank(c)
  }

  lemma {:induction false} ChainIgnores(inh: map<Id, Id>, rank: Id -> nat, c: Id, k: Id)
    requires Ranked(inh, rank) && rank(c) < rank(k)
    ensures Chain(inh - {k}, c) == Chain(inh, c)
    decreases inh.Keys
  {
    if SuperOf(inh, c).Some? {
      assert (inh - {k}) - {c} == (inh - {c}) - {k};
      assert Ranked(inh - {c}, rank);
      ChainIgnores(inh - {c}, rank, inh[c], k);
    }
  }

  /** Without cycles the chain is the obvious one. */
  lemma ChainStep(inh: map<Id, Id>, rank: Id -> nat, c: Id)
    requires Ranked(inh, rank)
    ensures Chain(inh, c) == if SuperOf(inh, c).Some? then [c] + Chain(inh, inh[c]) else [c]
  {
    if SuperOf(inh, c).Some? { ChainIgnores(inh, rank, inh[c], c); }
  }

  /** `Heap::ChildClassOf`: a walk up the superclasses, which the source only leaves
      by finding the class or the top. */
  method ChildClassOf(inh: map<Id, Id>, c: Id, target: Id, ghost rank: Id -> nat) returns (r: bool)
    requires Ranked(inh, rank)
    ensures r <==> target in Chain(inh, c)
  {
    var current := c;
    while true
      invariant target in Chain(inh, current) <==> target in Chain(inh, c)
      decreases rank(current)
    {
      ChainStep(inh, rank, current);
      if current == target {
        return true;
      }
      match SuperOf(inh, current) {
        case None => return false;
        case Some(s) => current := s;
      }
    }
  }

  // ----- matchers

  /** A resolved field matcher; zero matches every class or every field. */
  datatype Matcher = Matcher(classId: Id, fieldName: Id)

  predicate Matches(inh: map<Id, Id>, cls: Id, m: Matcher) {
    m.classId == 0 || m.classId in Chain(inh, cls)
  }

  /** Some matcher that applies to class `cls` covers the field called `name`. */
  predicate Covered(inh: map<Id, Id>, ms: seq<Matcher>, cls: Id, name: Id) {
    exists i :: 0 <= i < |ms| && Matches(inh, cls, ms[i]) && (ms[i].fieldName == 0 || ms[i].fieldName == name)
  }

  // ----- one instance

  /** The fields of a class and its superclasses in the order of the field data. */
  function FieldsOf(h: Heap, c: Id): seq<Field> {
    if c in h.instanceFields then h.instanceFields[c] else []
  }

  function AllFields(h: Heap, cs: seq<Id>): seq<Field> {
    if cs == [] then [] else FieldsOf(h, cs[0]) + AllFields(h, cs[1..])
  }

  function AddExcluded(h: Heap, a: Id, r: Reference, b: Id): Heap {
    h.(excluded := AddEdge(h.excluded, a, r, b))
  }

  function AddPrimitive(h: Heap, x: Id, name: Id, p: Primitive): Heap {
    var row := if x in h.primitives then h.primitives[x] else map[];
    h.(primitives := h.primitives[x := Emplace(row, name, p)])
  }

  /** What one decoded field adds. */
  function AddSlot(h: Heap, x: Id, f: Field, covered: bool, v: int): Heap {
    if !f.typ.Object? then AddPrimitive(h, x, f.name, Primitive(f.typ, v))
    else if covered then AddExcluded(h, x, FieldRef(false, f.name), v)
    else AddReference(h, x, FieldRef(false, f.name), v)
  }

  /** What decoding an instance depends on besides the field list: inheritance, the
      id size, the matchers, the class of the instance and its field data. */
  datatype View = View(inh: map<Id, Id>, n: nat, ms: seq<Matcher>, cls: Id, data: seq<byte>)

  predicate Excludes(v: View, f: Field) {
    Covered(v.inh, v.ms, v.cls, f.name)
  }

  function RunFields(v: View, h: Heap, x: Id, pos: nat, fs: seq<Field>): Parsed<Heap>
    decreases |fs|
  {
    if fs == [] then Done(h, pos) else
    match ReadN(v.data, pos, SizeIn(fs[0].typ, v.n)) case Fatal => Fatal case Done(y, p1) =>
    RunFields(v, AddSlot(h, x, fs[0], Excludes(v, fs[0]), y), x, p1, fs[1..])
  }

  function ViewOf(h: Heap, ms: seq<Matcher>, x: Id): View
    requires x in h.fieldsData
  {
    View(h.inheritance, h.idSize, ms, h.fieldsData[x].classId, h.fieldsData[x].data)
  }

  function LayoutOf(h: Heap, x: Id): seq<Field>
    requires x in h.fieldsData
  {
    AllFields(h, Chain(h.inheritance, h.fieldsData[x].classId))
  }

  function RunInstance(h: Heap, ms: seq<Matcher>, x: Id): Parsed<Heap>
    requires x in h.fieldsData
  {
    RunFields(ViewOf(h, ms, x), h, x, 0, LayoutOf(h, x))
  }

  lemma {:induction false} RunFieldsConcat(v: View, h: Heap, x: Id, pos: nat, fs: seq<Field>, gs: seq<Field>)
    ensures RunFields(v, h, x, pos, fs + gs) ==
            match RunFields(v, h, x, pos, fs)
            case Fatal => Fatal
            case Done(h1, p1) => RunFields(v, h1, x, p1, gs)
    decreases |fs|
  {
    if fs == [] {
      assert fs + gs == gs;
    } else {
      assert (fs + gs)[0] == fs[0] && (fs + gs)[1..] == fs[1..] + gs;
      match ReadN(v.data, pos, SizeIn(fs[0].typ, v.n)) {
        case Fatal =>
        case Done(y, p1) => RunFieldsConcat(v, AddSlot(h, x, fs[0], Excludes(v, fs[0]), y), x, p1, fs[1..], gs);
      }
    }
  }

  /** Only the reference tables and the primitives change. */
  ghost predicate OnlyTables(h: Heap, h': Heap) {
    h' == h.(references := h'.references, excluded := h'.excluded, primitives := h'.primitives)
  }

  /** ... and of the reference tables only the rows of `x`. */
  ghost predicate OnlyRows(h: Heap, h': Heap, x: Id) {
    && OnlyTables(h, h')
    && forall a {:trigger Row(h'.references, a)} {:trigger Row(h'.excluded, a)} :: a != x ==>
         Row(h'.references, a) == Row(h.references, a) && Row(h'.excluded, a) == Row(h.excluded, a)
  }

  // ----- what one instance ends up with

  /** The position of field `i`: the sizes of the fields before it, added up. */
  function Offset(fs: seq<Field>, i: nat, n: nat): nat
    requires i <= |fs|
    decreases i
  {
    if i == 0 then 0 else SizeIn(fs[0].typ, n) + Offset(fs[1..], i - 1, n)
  }

  /** Field `i` is an object field that holds `y`, covered by a matcher or not. */
  ghost predicate Holds(v: View, pos: nat, fs: seq<Field>, i: nat, y: Id, covered: bool) {
    && i < |fs| && fs[i].typ.Object? && Excludes(v, fs[i]) == covered
    && pos + Offset(fs, i, v.n) + v.n <= |v.data|
    && Value(v.data, pos + Offset(fs, i, v.n), v.n) == y
  }

  ghost predicate SomeHolds(v: View, pos: nat, fs: seq<Field>, y: Id, covered: bool) {
    exists i: nat :: Holds(v, pos, fs, i, y, covered)
  }

  /** Holding shifts with the list. */
  lemma HoldsTail(v: View, pos: nat, fs: seq<Field>, i: nat, y: Id, covered: bool)
    requires fs != [] && i > 0
    ensures Holds(v, pos, fs, i, y, covered)
       <==> Holds(v, pos + SizeIn(fs[0].typ, v.n), fs[1..], i - 1, y, covered)
  {
    if i < |fs| { assert fs[1..][i - 1] == fs[i]; }
  }

  lemma SomeHoldsCons(v: View, pos: nat, fs: seq<Field>, y: Id, covered: bool)
    requires fs != []
    ensures SomeHolds(v, pos, fs, y, covered)
       <==> Holds(v, pos, fs, 0, y, covered) || SomeHolds(v, pos + SizeIn(fs[0].typ, v.n), fs[1..], y, covered)
  {
    var p1 := pos + SizeIn(fs[0].typ, v.n);
    if SomeHolds(v, pos, fs, y, covered) {
      var i: nat :| Holds(v, pos, fs, i, y, covered);
      if i > 0 {
        HoldsTail(v, pos, fs, i, y, covered);
        assert Holds(v, p1, fs[1..], i - 1, y, covered);
      }
    }
    if SomeHolds(v, p1, fs[1..], y, covered) {
      var i: nat :| Holds(v, p1, fs[1..], i, y, covered);
      HoldsTail(v, pos, fs, i + 1, y, covered);
      assert Holds(v, pos, fs, i + 1, y, covered);
    }
  }

  lemma AddEdgeRow(g: Graph, a: Id, r: Reference, b: Id, c: Id)
    ensures Row(AddEdge(g, a, r, b), c) == if c == a then Row(g, a)[b := r] else Row(g, c)
  {}

  lemma PrimitiveTables(h: Heap, x: Id, name: Id, p: Primitive)
    ensures var h1 := AddPrimitive(h, x, name, p);
            OnlyTables(h, h1) && h1.references == h.references && h1.excluded == h.excluded
  {}

  /** Which of the tables one field changes. */
  lemma SlotTables(h: Heap, x: Id, f: Field, covered: bool, z: Id)
    ensures var h1 := AddSlot(h, x, f, covered, z);
            && OnlyTables(h, h1)
            && h1.references == (if f.typ.Object? && !covered then AddEdge(h.references, x, FieldRef(false, f.name), z)
                                 else h.references)
            && h1.excluded == (if f.typ.Object? && covered then AddEdge(h.excluded, x, FieldRef(false, f.name), z)
                               else h.excluded)
  {
    PrimitiveTables(h, x, f.name, Primitive(f.typ, z));
  }

  lemma SlotOthers(h: Heap, x: Id, f: Field, covered: bool, z: Id)
    ensures OnlyRows(h, AddSlot(h, x, f, covered, z), x)
  {
    SlotTables(h, x, f, covered, z);
    var h1 := AddSlot(h, x, f, covered, z);
    forall a | a != x ensures Row(h1.references, a) == Row(h.references, a) && Row(h1.excluded, a) == Row(h.excluded, a) {
      AddEdgeRow(h.references, x, FieldRef(false, f.name), z, a);
      AddEdgeRow(h.excluded, x, FieldRef(false, f.name), z, a);
    }
  }

  lemma SlotRows(h: Heap, x: Id, f: Field, covered: bool, z: Id)
    ensures Row(AddSlot(h, x, f, covered, z).references, x) ==
            if f.typ.Object? && !covered then Row(h.references, x)[z := FieldRef(false, f.name)] else Row(h.references, x)
    ensures Row(AddSlot(h, x, f, covered, z).excluded, x) ==
            if f.typ.Object? && covered then Row(h.excluded, x)[z := FieldRef(false, f.name)] else Row(h.excluded, x)
  {
    SlotTables(h, x, f, covered, z);
    AddEdgeRow(h.references, x, FieldRef(false, f.name), z, x);
    AddEdgeRow(h.excluded, x, FieldRef(false, f.name), z, x);
  }

  lemma OnlyRowsTrans(h: Heap, h1: Heap, h2: Heap, x: Id)
    requires OnlyRows(h, h1, x) && OnlyRows(h1, h2, x)
    ensures OnlyRows(h, h2, x)
  {
    forall a | a != x
      ensures Row(h2.references, a) == Row(h.references, a) && Row(h2.excluded, a) == Row(h.excluded, a)
    {
      assert Row(h1.references, a) == Row(h.references, a);
    }
  }

  lemma {:induction false} RunFieldsOthers(v: View, h: Heap, x: Id, pos: nat, fs: seq<Field>)
    requires RunFields(v, h, x, pos, fs).Done?
    ensures OnlyRows(h, RunFields(v, h, x, pos, fs).value, x)
    decreases |fs|
  {
    if fs != [] {
      var p1 := pos + SizeIn(fs[0].typ, v.n);
      var z := Value(v.data, pos, SizeIn(fs[0].typ, v.n));
      var h1 := AddSlot(h, x, fs[0], Excludes(v, fs[0]), z);
      SlotOthers(h, x, fs[0], Excludes(v, fs[0]), z);
      RunFieldsOthers(v, h1, x, p1, fs[1..]);
      OnlyRowsTrans(h, h1, RunFields(v, h1, x, p1, fs[1..]).value, x);
    }
  }

  /** The references of an instance after its fields have been decoded: `y` is a leak
      edge exactly when it was one before or some object field that no matcher covers
      holds `y` at its offset, and likewise for excluded edges and covered fields. */
  lemma {:induction false} RunFieldsEdges(v: View, h: Heap, x: Id, pos: nat, fs: seq<Field>, y: Id)
    requires RunFields(v, h, x, pos, fs).Done?
    ensures var h' := RunFields(v, h, x, pos, fs).value;
            && (y in Row(h'.references, x) <==> y in Row(h.references, x) || SomeHolds(v, pos, fs, y, false))
            && (y in Row(h'.excluded, x) <==> y in Row(h.excluded, x) || SomeHolds(v, pos, fs, y, true))
    decreases |fs|
  {
    if fs == [] {
      assert !SomeHolds(v, pos, fs, y, false) && !SomeHolds(v, pos, fs, y, true);
    } else {
      var p1 := pos + SizeIn(fs[0].typ, v.n);
      var z := Value(v.data, pos, SizeIn(fs[0].typ, v.n));
      var h1 := AddSlot(h, x, fs[0], Excludes(v, fs[0]), z);
      SlotRows(h, x, fs[0], Excludes(v, fs[0]), z);
      RunFieldsEdges(v, h1, x, p1, fs[1..], y);
      SomeHoldsCons(v, pos, fs, y, false);
      SomeHoldsCons(v, pos, fs, y, true);
      assert Offset(fs, 0, v.n) == 0;
    }
  }

  /** What the first field does to the label of `y`. */
  lemma FirstLabel(v: View, h: Heap, x: Id, pos: nat, fs: seq<Field>, y: Id)
    requires fs != [] && pos + SizeIn(fs[0].typ, v.n) <= |v.data|
    ensures var h1 := AddSlot(h, x, fs[0], Excludes(v, fs[0]), Value(v.data, pos, SizeIn(fs[0].typ, v.n)));
            && (Holds(v, pos, fs, 0, y, false) ==>
                  y in Row(h1.references, x) && Row(h1.references, x)[y] == FieldRef(false, fs[0].name))
            && (!Holds(v, pos, fs, 0, y, false) && y in Row(h.references, x) ==>
                  y in Row(h1.references, x) && Row(h1.references, x)[y] == Row(h.references, x)[y])
  {
    SlotRows(h, x, fs[0], Excludes(v, fs[0]), Value(v.data, pos, SizeIn(fs[0].typ, v.n)));
    assert Offset(fs, 0, v.n) == 0;
  }

  /** No uncovered field from `i` on holds `y`. */
  ghost predicate NoneFrom(v: View, pos: nat, fs: seq<Field>, i: nat, y: Id) {
    forall j: nat :: j >= i ==> !Holds(v, pos, fs, j, y, false)
  }

  lemma NoneHoldsTail(v: View, pos: nat, fs: seq<Field>, i: nat, y: Id, p1: nat, tail: seq<Field>)
    requires fs != [] && NoneFrom(v, pos, fs, i + 1, y)
    requires p1 == pos + SizeIn(fs[0].typ, v.n) && tail == fs[1..]
    ensures NoneFrom(v, p1, tail, i, y)
  {
    forall j: nat | j >= i ensures !Holds(v, p1, tail, j, y, false) {
      HoldsTail(v, pos, fs, j + 1, y, false);
    }
  }

  lemma {:induction false} RunFieldsKeepsLabel(v: View, h: Heap, x: Id, pos: nat, fs: seq<Field>, y: Id)
    requires RunFields(v, h, x, pos, fs).Done? && y in Row(h.references, x)
    requires NoneFrom(v, pos, fs, 0, y)
    ensures var h' := RunFields(v, h, x, pos, fs).value;
            y in Row(h'.references, x) && Row(h'.references, x)[y] == Row(h.references, x)[y]
    decreases |fs|
  {
    if fs != [] {
      var p1, z := pos + SizeIn(fs[0].typ, v.n), Value(v.data, pos, SizeIn(fs[0].typ, v.n));
      FirstLabel(v, h, x, pos, fs, y);
      assert !Holds(v, pos, fs, 0, y, false) && NoneFrom(v, pos, fs, 1, y);
      NoneHoldsTail(v, pos, fs, 0, y, p1, fs[1..]);
      RunFieldsKeepsLabel(v, AddSlot(h, x, fs[0], Excludes(v, fs[0]), z), x, p1, fs[1..], y);
    }
  }

  /** The label names the last uncovered field that holds the object. */
  lemma {:induction false} RunFieldsLabel(v: View, h: Heap, x: Id, pos: nat, fs: seq<Field>, i: nat, y: Id)
    requires RunFields(v, h, x, pos, fs).Done? && Holds(v, pos, fs, i, y, false)
    requires NoneFrom(v, pos, fs, i + 1, y)
    ensures var h' := RunFields(v, h, x, pos, fs).value;
            y in Row(h'.references, x) && Row(h'.references, x)[y] == FieldRef(false, fs[i].name)
    decreases |fs|
  {
    var p1, z, tail := pos + SizeIn(fs[0].typ, v.n), Value(v.data, pos, SizeIn(fs[0].typ, v.n)), fs[1..];
    var h1 := AddSlot(h, x, fs[0], Excludes(v, fs[0]), z);
    assert RunFields(v, h, x, pos, fs) == RunFields(v, h1, x, p1, tail);
    if i == 0 {
      NoneHoldsTail(v, pos, fs, 0, y, p1, tail);
      FirstLabel(v, h, x, pos, fs, y);
      RunFieldsKeepsLabel(v, h1, x, p1, tail, y);
    } else {
      LastHoldsTail(v, pos, fs, i, y, p1, tail);
      RunFieldsLabel(v, h1, x, p1, tail, i - 1, y);
    }
  }

  lemma LastHoldsTail(v: View, pos: nat, fs: seq<Field>, i: nat, y: Id, p1: nat, tail: seq<Field>)
    requires fs != [] && i > 0 && Holds(v, pos, fs, i, y, false) && NoneFrom(v, pos, fs, i + 1, y)
    requires p1 == pos + SizeIn(fs[0].typ, v.n) && tail == fs[1..]
    ensures Holds(v, p1, tail, i - 1, y, false) && NoneFrom(v, p1, tail, i, y) && tail[i - 1] == fs[i]
  {
    HoldsTail(v, pos, fs, i, y, false);
    NoneHoldsTail(v, pos, fs, i, y, p1, tail);
  }

  /** Decoding one instance looks only at, and changes only, its own rows. */
  lemma {:induction false} RunFieldsLocal(v: View, h: Heap, k: Heap, x: Id, pos: nat, fs: seq<Field>)
    requires Row(h.references, x) == Row(k.references, x) && Row(h.excluded, x) == Row(k.excluded, x)
    ensures RunFields(v, h, x, pos, fs).Done? <==> RunFields(v, k, x, pos, fs).Done?
    ensures RunFields(v, h, x, pos, fs).Done? ==>
              var h', k' := RunFields(v, h, x, pos, fs).value, RunFields(v, k, x, pos, fs).value;
              Row(h'.references, x) == Row(k'.references, x) && Row(h'.excluded, x) == Row(k'.excluded, x)
    decreases |fs|
  {
    if fs != [] && ReadN(v.data, pos, SizeIn(fs[0].typ, v.n)).Done? {
      var p1 := pos + SizeIn(fs[0].typ, v.n);
      var z := Value(v.data, pos, SizeIn(fs[0].typ, v.n));
      SlotRows(h, x, fs[0], Excludes(v, fs[0]), z);
      SlotRows(k, x, fs[0], Excludes(v, fs[0]), z);
      RunFieldsLocal(v, AddSlot(h, x, fs[0], Excludes(v, fs[0]), z), AddSlot(k, x, fs[0], Excludes(v, fs[0]), z),
                     x, p1, fs[1..]);
    }
  }

  // ----- the GC roots

  /** All references of `a` have moved from the leak graph to the excluded ones. */
  ghost predicate Moved(h: Heap, h': Heap, a: Id) {
    Row(h'.references, a) == map[] && Row(h'.excluded, a) == Row(h.excluded, a) + Row(h.references, a)
  }

  ghost predicate Stayed(h: Heap, h': Heap, a: Id) {
    Row(h'.references, a) == Row(h.references, a) && Row(h'.excluded, a) == Row(h.excluded, a)
  }

  /** Either way, no edge is lost and none is invented: leak and excluded edges
      together are the same. */
  lemma MovesKeepEdges(h: Heap, h': Heap, a: Id, b: Id)
    requires Moved(h, h', a) || Stayed(h, h', a)
    ensures Edge(h'.references, a, b) || Edge(h'.excluded, a, b) <==> Edge(h.references, a, b) || Edge(h.excluded, a, b)
    ensures Edge(h'.references, a, b) ==> Edge(h.references, a, b)
  {
    assert Edge(h'.references, a, b) <==> b in Row(h'.references, a);
    assert Edge(h'.excluded, a, b) <==> b in Row(h'.excluded, a);
    assert Edge(h.references, a, b) <==> b in Row(h.references, a);
    assert Edge(h.excluded, a, b) <==> b in Row(h.excluded, a);
  }

  lemma MoveTwice(h: Heap, h1: Heap, h2: Heap, a: Id)
    requires (Moved(h, h1, a) || Stayed(h, h1, a)) && (Moved(h1, h2, a) || Stayed(h1, h2, a))
    ensures if Moved(h, h1, a) || Moved(h1, h2, a) then Moved(h, h2, a) else Stayed(h, h2, a)
  {}

  /** The rows of `a` after the pass over the instances. */
  ghost predicate RowsAfter(h: Heap, h': Heap, ms: seq<Matcher>, a: Id) {
    if a in h.fieldsData then
      && RunInstance(h, ms, a).Done?
      && Row(h'.references, a) == Row(RunInstance(h, ms, a).value.references, a)
      && Row(h'.excluded, a) == Row(RunInstance(h, ms, a).value.excluded, a)
    else Stayed(h, h', a)
  }

  /** Decoding `x` in a heap whose rows of `x` are still the original ones. */
  lemma RunLater(h: Heap, h1: Heap, ms: seq<Matcher>, x: Id)
    requires OnlyTables(h, h1) && x in h.fieldsData && Stayed(h, h1, x)
    ensures RunInstance(h, ms, x).Done? <==> RunInstance(h1, ms, x).Done?
    ensures RunInstance(h1, ms, x).Done? ==>
              var h2 := RunInstance(h1, ms, x).value;
              RowsAfter(h, h2, ms, x) && OnlyRows(h1, h2, x)
  {
    assert LayoutOf(h1, x) == LayoutOf(h, x) by { LayoutSame(h, h1, Chain(h.inheritance, h.fieldsData[x].classId)); }
    RunFieldsLocal(ViewOf(h, ms, x), h, h1, x, 0, LayoutOf(h, x));
    if RunInstance(h1, ms, x).Done? { RunFieldsOthers(ViewOf(h, ms, x), h1, x, 0, LayoutOf(h, x)); }
  }

  lemma {:induction false} LayoutSame(h: Heap, h1: Heap, cs: seq<Id>)
    requires h.instanceFields == h1.instanceFields
    ensures AllFields(h, cs) == AllFields(h1, cs)
  {
    if cs != [] { LayoutSame(h, h1, cs[1..]); }
  }

  /** Some object field of `a` holds `b`, covered by a matcher or not. */
  ghost predicate FieldEdge(h: Heap, ms: seq<Matcher>, a: Id, b: Id, covered: bool) {
    a in h.fieldsData && SomeHolds(ViewOf(h, ms, a), 0, LayoutOf(h, a), b, covered)
  }

  ghost predicate LastHolds(v: View, fs: seq<Field>, i: nat, y: Id) {
    Holds(v, 0, fs, i, y, false) && NoneFrom(v, 0, fs, i + 1, y)
  }

  /** The label that an edge should carry: that of the last uncovered field, or the
      one the parse left if no field holds the object. */
  ghost predicate LeakLabel(h: Heap, ms: seq<Matcher>, a: Id, b: Id, r: Reference) {
    if FieldEdge(h, ms, a, b, false) then
      exists i: nat :: LastHolds(ViewOf(h, ms, a), LayoutOf(h, a), i, b) && r == FieldRef(false, LayoutOf(h, a)[i].name)
    else Edge(h.references, a, b) && r == h.references[a][b]
  }

  lemma {:induction false} LastHoldsExists(v: View, fs: seq<Field>, i: nat, y: Id) returns (k: nat)
    requires Holds(v, 0, fs, i, y, false)
    ensures LastHolds(v, fs, k, y)
    decreases |fs| - i
  {
    if j: nat :| j > i && Holds(v, 0, fs, j, y, false) {
      k := LastHoldsExists(v, fs, j, y);
    } else {
      k := i;
    }
  }

  /** The edges and the labels after the pass over the instances. */
  lemma RowsAfterEdges(h: Heap, h': Heap, ms: seq<Matcher>, a: Id, b: Id)
    requires RowsAfter(h, h', ms, a)
    ensures Edge(h'.references, a, b) <==> Edge(h.references, a, b) || FieldEdge(h, ms, a, b, false)
    ensures Edge(h'.excluded, a, b) <==> Edge(h.excluded, a, b) || FieldEdge(h, ms, a, b, true)
    ensures Edge(h'.references, a, b) ==> LeakLabel(h, ms, a, b, h'.references[a][b])
  {
    EdgeInRow(h'.references, a, b);
    EdgeInRow(h.references, a, b);
    EdgeInRow(h'.excluded, a, b);
    EdgeInRow(h.excluded, a, b);
    if a in h.fieldsData {
      RunFieldsEdges(ViewOf(h, ms, a), h, a, 0, LayoutOf(h, a), b);
      if Edge(h'.references, a, b) { RowsAfterLabel(h, h', ms, a, b); }
    }
  }

  lemma RowsAfterLabel(h: Heap, h': Heap, ms: seq<Matcher>, a: Id, b: Id)
    requires RowsAfter(h, h', ms, a) && a in h.fieldsData && Edge(h'.references, a, b)
    requires Edge(h.references, a, b) || FieldEdge(h, ms, a, b, false)
    ensures LeakLabel(h, ms, a, b, h'.references[a][b])
  {
    var v, fs := ViewOf(h, ms, a), LayoutOf(h, a);
    if FieldEdge(h, ms, a, b, false) {
      var i: nat :| Holds(v, 0, fs, i, b, false);
      var k := LastHoldsExists(v, fs, i, b);
      RunFieldsLabel(v, h, a, 0, fs, k, b);
    } else {
      RunFieldsKeepsLabel(v, h, a, 0, fs, b);
    }
  }

  /** `InstanceOf`. */
  predicate InstanceOf(h: Heap, x: Id, c: Id) {
    x in h.instanceClasses && c in Chain(h.inheritance, h.instanceClasses[x])
  }

  /** A native-global matcher covers the root; zero matches every class. */
  predicate NativeHit(h: Heap, natives: seq<Id>, root: Id) {
    exists i :: 0 <= i < |natives| && (natives[i] == 0 || InstanceOf(h, root, natives[i]))
  }

  predicate DroppedRoot(h: Heap, natives: seq<Id>, root: Id) {
    && root in h.gcRoots && root in h.gcRootTypes && h.gcRootTypes[root].JniGlobal?
    && NativeHit(h, natives, root)
  }

  /** A thread matcher covers the frame: the name of its thread matches; `None`
      matches every name. */
  predicate ThreadHit(h: Heap, threads: seq<Option<seq<byte>>>, threadName: (Heap, Id) -> Option<seq<byte>>, root: Id) {
    && root in h.gcRootTypes && h.gcRootTypes[root].JavaFrame?
    && root in h.threadSerials && h.threadSerials[root] in h.threadObjects
    && var name := threadName(h, h.threadObjects[h.threadSerials[root]]);
       name.Some? && exists i :: 0 <= i < |threads| && (threads[i].None? || threads[i] == name)
  }

  /** A root without a type, or a frame whose thread is not known. */
  predicate FatalRoot(h: Heap, root: Id) {
    || root !in h.gcRootTypes
    || (h.gcRootTypes[root].JavaFrame? && (root !in h.threadSerials || h.threadSerials[root] !in h.threadObjects))
  }

  /** The pass is fatal exactly when some instance has too little data for its fields or
      some root is. */
  ghost predicate PassFails(h: Heap, ms: seq<Matcher>) {
    || (exists x :: x in h.fieldsData && RunInstance(h, ms, x).Fatal?)
    || (exists r :: r in h.gcRoots && FatalRoot(h, r))
  }

  /** The leak graph that the whole pass should leave when no thread is excluded. */
  ghost predicate LeakEdge(h: Heap, ms: seq<Matcher>, natives: seq<Id>, a: Id, b: Id) {
    !DroppedRoot(h, natives, a) && (Edge(h.references, a, b) || FieldEdge(h, ms, a, b, false))
  }

  /** ... and the excluded edges: covered fields, and everything of a dropped root. */
  ghost predicate ExcludedEdge(h: Heap, ms: seq<Matcher>, natives: seq<Id>, a: Id, b: Id) {
    || Edge(h.excluded, a, b)
    || FieldEdge(h, ms, a, b, true)
    || (DroppedRoot(h, natives, a) && (Edge(h.references, a, b) || FieldEdge(h, ms, a, b, false)))
  }

  ghost predicate LeftAt(h: Heap, h': Heap, ms: seq<Matcher>, natives: seq<Id>, a: Id, b: Id) {
    && (Edge(h'.references, a, b) <==> LeakEdge(h, ms, natives, a, b))
    && (Edge(h'.references, a, b) ==> LeakLabel(h, ms, a, b, h'.references[a][b]))
    && (Edge(h'.excluded, a, b) <==> ExcludedEdge(h, ms, natives, a, b))
  }

  /** What the whole pass leaves when no thread is excluded: the leak edges with their
      labels and the excluded edges, and nothing else has changed but primitives. */
  ghost predicate LazyOutcome(h: Heap, h': Heap, ms: seq<Matcher>, natives: seq<Id>) {
    OnlyTables(h, h') && forall a, b {:trigger LeftAt(h, h', ms, natives, a, b)} :: LeftAt(h, h', ms, natives, a, b)
  }

  lemma CoveredMore(inh: map<Id, Id>, ms: seq<Matcher>, more: seq<Matcher>, cls: Id, name: Id)
    requires forall m :: m in ms ==> m in more
    ensures Covered(inh, ms, cls, name) ==> Covered(inh, more, cls, name)
  {
    if Covered(inh, ms, cls, name) {
      var k :| 0 <= k < |ms| && Matches(inh, cls, ms[k]) && (ms[k].fieldName == 0 || ms[k].fieldName == name);
      assert ms[k] in more;
    }
  }

  /** With more field matchers, and everything else the same, there are no more leak
      edges. */
  lemma MoreMatchersFewerEdges(h: Heap, ms: seq<Matcher>, more: seq<Matcher>, natives: seq<Id>, a: Id, b: Id)
    requires forall m :: m in ms ==> m in more
    requires LeakEdge(h, more, natives, a, b)
    ensures LeakEdge(h, ms, natives, a, b)
  {
    if !Edge(h.references, a, b) {
      var v, w, fs := ViewOf(h, more, a), ViewOf(h, ms, a), LayoutOf(h, a);
      var i: nat :| Holds(v, 0, fs, i, b, false);
      CoveredMore(h.inheritance, ms, more, v.cls, fs[i].name);
      assert Holds(w, 0, fs, i, b, false);
    }
  }

  // ----- resolving matchers by name

  /** A matcher as the user gave it; `None` is the wildcard "*". */
  datatype FieldMatcher = FieldMatcher(className: Option<seq<byte>>, fieldName: Option<seq<byte>>)

  ghost predicate Least(x: Id, s: set<Id>) {
    x in s && forall y :: y in s ==> x <= y
  }

  lemma {:induction false} LeastExists(s: set<Id>)
    requires exists x :: x in s
    ensures exists x :: Least(x, s)
    decreases s
  {
    var x :| x in s;
    var t := s - {x};
    assert forall z :: z in s ==> z == x || z in t;
    if exists y :: y in t {
      LeastExists(t);
      var y :| Least(y, t);
      if x <= y {
        assert Least(x, s);
      } else {
        assert Least(y, s);
      }
    } else {
      assert Least(x, s);
    }
  }

  /** The first key of an ordered map that satisfies a condition; zero stands for
      "none", also when zero itself is that key. */
  ghost function First(s: set<Id>): (r: Option<Id>)
    ensures r.Some? ==> Least(r.value, s) && r.value != 0
    ensures r.None? ==> (forall x :: x !in s) || Least(0, s)
  {
    if exists x :: x in s then
      LeastExists(s);
      var x :| Least(x, s);
      if x == 0 then None else Some(x)
    else None
  }

  ghost function FindStringId(h: Heap, v: seq<byte>): Option<Id> {
    First(set i | i in h.strings && h.strings[i] == v)
  }

  ghost function FindClassByName(h: Heap, name: seq<byte>): Option<Id> {
    match FindStringId(h, name)
    case None => None
    case Some(id) => First(set c | c in h.classNames && h.classNames[c] == id)
  }

  /** A matcher whose class or field is not in the heap is dropped. */
  ghost function Resolve(h: Heap, m: FieldMatcher): Option<Matcher> {
    var c := if m.className.None? then Some(0) else FindClassByName(h, m.className.value);
    var f := if m.fieldName.None? then Some(0) else FindStringId(h, m.fieldName.value);
    if c.Some? && f.Some? then Some(Matcher(c.value, f.value)) else None
  }

  ghost function Flatten(h: Heap, ms: seq<FieldMatcher>): seq<Matcher> {
    if ms == [] then []
    else (match Resolve(h, ms[0]) case None => [] case Some(m) => [m]) + Flatten(h, ms[1..])
  }

  lemma {:induction false} FlattenMembers(h: Heap, ms: seq<FieldMatcher>, m: Matcher)
    ensures m in Flatten(h, ms) <==> exists u :: u in ms && Resolve(h, u) == Some(m)
  {
    if ms != [] {
      FlattenMembers(h, ms[1..], m);
      assert ms == [ms[0]] + ms[1..];
    }
  }

  /** Adding instance-field matchers, in any position, only removes leak edges. */
  lemma ExclusionOnlyRemoves(h: Heap, ms: seq<FieldMatcher>, more: seq<FieldMatcher>, natives: seq<Id>, a: Id, b: Id)
    requires forall u :: u in ms ==> u in more
    requires LeakEdge(h, Flatten(h, more), natives, a, b)
    ensures LeakEdge(h, Flatten(h, ms), natives, a, b)
  {
    forall m | m in Flatten(h, ms) ensures m in Flatten(h, more) {
      FlattenMembers(h, ms, m);
      FlattenMembers(h, more, m);
    }
    MoreMatchersFewerEdges(h, Flatten(h, ms), Flatten(h, more), natives, a, b);
  }

  // ----- the pass as it runs

  /** The fields of a class and of its superclasses, in the order they are stored. */
  function FieldsFrom(h: Heap, c: Id): seq<Field> {
    AllFields(h, Chain(h.inheritance, c))
  }

  lemma FieldsFromStep(h: Heap, rank: Id -> nat, c: Id)
    requires Ranked(h.inheritance, rank)
    ensures FieldsFrom(h, c) == FieldsOf(h, c) +
            match SuperOf(h.inheritance, c) case None => [] case Some(s) => FieldsFrom(h, s)
  {
    ChainStep(h.inheritance, rank, c);
    var cs := Chain(h.inheritance, c);
    assert cs[1..] == if SuperOf(h.inheritance, c).Some? then Chain(h.inheritance, h.inheritance[c]) else [];
    assert AllFields(h, cs) == FieldsOf(h, c) + AllFields(h, cs[1..]);
    assert AllFields(h, []) == [];
  }

  /** Reading from class `c` up is reading the fields of `c`, then from its superclass up. */
  lemma LevelStep(v: View, h1: Heap, x: Id, pos: nat, h: Heap, rank: Id -> nat, c: Id)
    requires Ranked(h.inheritance, rank)
    ensures RunFields(v, h1, x, pos, FieldsFrom(h, c)) ==
            match RunFields(v, h1, x, pos, FieldsOf(h, c))
            case Fatal => Fatal
            case Done(h2, p2) =>
              match SuperOf(h.inheritance, c)
              case None => Done(h2, p2)
              case Some(s) => RunFields(v, h2, x, p2, FieldsFrom(h, s))
  {
    FieldsFromStep(h, rank, c);
    var above := match SuperOf(h.inheritance, c) case None => [] case Some(s) => FieldsFrom(h, s);
    RunFieldsConcat(v, h1, x, pos, FieldsOf(h, c), above);
  }

  class LazyPass {
    var heap: Heap

    constructor (h: Heap)
      ensures heap == h
    {
      heap := h;
    }

    /** The matchers whose class is the instance's class or one of its superclasses. */
    method ClassMatchers(ms: seq<Matcher>, cls: Id, ghost rank: Id -> nat) returns (r: seq<Matcher>)
      requires Ranked(heap.inheritance, rank)
      ensures forall name :: (exists i :: 0 <= i < |r| && (r[i].fieldName == 0 || r[i].fieldName == name))
                        <==> Covered(heap.inheritance, ms, cls, name)
    {
      r := [];
      for i := 0 to |ms|
        invariant forall m :: m in r <==> exists k :: 0 <= k < i && m == ms[k] && Matches(heap.inheritance, cls, ms[k])
      {
        var m, applies := ms[i], ms[i].classId == 0;
        if !applies {
          applies := ChildClassOf(heap.inheritance, cls, m.classId, rank);
        }
        if applies {
          r := r + [m];
        }
      }
      forall name
        ensures (exists i :: 0 <= i < |r| && (r[i].fieldName == 0 || r[i].fieldName == name))
           <==> Covered(heap.inheritance, ms, cls, name)
      {
        if i :| 0 <= i < |r| && (r[i].fieldName == 0 || r[i].fieldName == name) {
          assert r[i] in r;
        }
        if Covered(heap.inheritance, ms, cls, name) {
          var k :| 0 <= k < |ms| && Matches(heap.inheritance, cls, ms[k]) && (ms[k].fieldName == 0 || ms[k].fieldName == name);
          assert ms[k] in r;
        }
      }
    }

    method NameCovered(ms: seq<Matcher>, name: Id) returns (r: bool)
      ensures r <==> exists i :: 0 <= i < |ms| && (ms[i].fieldName == 0 || ms[i].fieldName == name)
    {
      for i := 0 to |ms|
        invariant forall k :: 0 <= k < i ==> !(ms[k].fieldName == 0 || ms[k].fieldName == name)
      {
        if ms[i].fieldName == 0 || ms[i].fieldName == name {
          return true;
        }
      }
      return false;
    }

    /** The fields that one class of the chain contributes. */
    method ReadClassFields(reader: Reader, x: Id, fields: seq<Field>, applicable: seq<Matcher>, ghost v: View)
      returns (ok: bool)
      requires v.data == reader.buffer && v.n == heap.idSize && reader.cursor <= |reader.buffer|
      requires forall name :: (exists i :: 0 <= i < |applicable| && (applicable[i].fieldName == 0 || applicable[i].fieldName == name))
                         <==> Covered(v.inh, v.ms, v.cls, name)
      modifies this, reader
      ensures ok ==> RunFields(v, old(heap), x, old(reader.cursor), fields) == Done(heap, reader.cursor)
                     && reader.cursor <= |reader.buffer| && OnlyTables(old(heap), heap)
      ensures !ok ==> RunFields(v, old(heap), x, old(reader.cursor), fields).Fatal?
    {
      ghost var goal := RunFields(v, heap, x, reader.cursor, fields);
      assert fields[0..] == fields;
      for i := 0 to |fields|
        invariant reader.cursor <= |reader.buffer| && OnlyTables(old(heap), heap)
        invariant RunFields(v, heap, x, reader.cursor, fields[i..]) == goal
      {
        var field, value := fields[i], 0;
        assert fields[i..][0] == field && fields[i..][1..] == fields[i + 1..];
        ok, value := reader.Read(SizeIn(field.typ, heap.idSize));
        if !ok { return; }
        var exclude := NameCovered(applicable, field.name);
        SlotTables(heap, x, field, exclude, value);
        heap := AddSlot(heap, x, field, exclude, value);
      }
      assert fields[|fields|..] == [];
      ok := true;
    }

    /** One instance: up the superclass chain, field by field. */
    method ReadInstance(x: Id, ms: seq<Matcher>, ghost rank: Id -> nat) returns (ok: bool)
      requires x in heap.fieldsData && Ranked(heap.inheritance, rank)
      modifies this
      ensures ok ==> RunInstance(old(heap), ms, x).Done? && heap == RunInstance(old(heap), ms, x).value
      ensures !ok ==> RunInstance(old(heap), ms, x).Fatal?
    {
      var task := heap.fieldsData[x];
      var reader := new Reader(task.data);
      var applicable := ClassMatchers(ms, task.classId, rank);
      var current := task.classId;
      ghost var h0, v := heap, ViewOf(heap, ms, x);
      ghost var goal := RunInstance(h0, ms, x);
      while true
        invariant reader.buffer == task.data && reader.cursor <= |task.data| && OnlyTables(h0, heap)
        invariant RunFields(v, heap, x, reader.cursor, FieldsFrom(h0, current)) == goal
        decreases rank(current)
      {
        var fields := FieldsOf(heap, current);
        LevelStep(v, heap, x, reader.cursor, h0, rank, current);
        ok := ReadClassFields(reader, x, fields, applicable, v);
        if !ok { return; }
        match SuperOf(heap.inheritance, current) {
          case None => return true;
          case Some(s) => current := s;
        }
      }
    }

    /** All instances; the order does not matter, because each touches its own rows. */
    method InstancePass(ms: seq<Matcher>, ghost rank: Id -> nat) returns (ok: bool)
      requires Ranked(heap.inheritance, rank)
      modifies this
      ensures ok ==> OnlyTables(old(heap), heap) && forall a :: RowsAfter(old(heap), heap, ms, a)
      ensures !ok ==> exists x :: x in old(heap).fieldsData && RunInstance(old(heap), ms, x).Fatal?
    {
      ghost var h0 := heap;
      var rest := heap.fieldsData.Keys;
      while rest != {}
        invariant rest <= h0.fieldsData.Keys && OnlyTables(h0, heap)
        invariant forall a :: if a in rest then Stayed(h0, heap, a) else RowsAfter(h0, heap, ms, a)
      {
        var x := Pick(rest);
        ghost var h1 := heap;
        RunLater(h0, h1, ms, x);
        ok := ReadInstance(x, ms, rank);
        if !ok { return; }
        forall a ensures if a in rest - {x} then Stayed(h0, heap, a) else RowsAfter(h0, heap, ms, a) {
          if a != x {
            assert Row(heap.references, a) == Row(h1.references, a);
            assert if a in rest then Stayed(h0, h1, a) else RowsAfter(h0, h1, ms, a);
          }
        }
        rest := rest - {x};
      }
      ok := true;
    }

    method ExcludeReferences(r: Id)
      modifies this
      ensures OnlyTables(old(heap), heap) && Moved(old(heap), heap, r)
      ensures forall a :: a != r ==> Stayed(old(heap), heap, a)
    {
      if r in heap.references {
        var excluded := AddAll(heap.excluded, r, heap.references[r]);
        heap := heap.(excluded := excluded, references := heap.references - {r});
      }
    }

    /** The pass over the GC roots.  `threadName` stands for the lookup of a thread's
        name in the heap; a Java frame whose thread is unknown is fatal. */
    method GcRootPass(natives: seq<Id>, threads: seq<Option<seq<byte>>>, threadName: (Heap, Id) -> Option<seq<byte>>,
                      ghost rank: Id -> nat)
      returns (ok: bool, ghost trace: seq<Heap>)
      requires Ranked(heap.inheritance, rank)
      modifies this
      ensures ok ==> OnlyTables(old(heap), heap)
      ensures ok ==> RootsVisited(old(heap), heap, old(heap).gcRoots, natives, threads == [])
      ensures ok ==> IsTrace(trace, old(heap), heap, old(heap).gcRoots, natives, threads, threadName)
      ensures ok <==> forall r :: r in old(heap).gcRoots ==> !FatalRoot(old(heap), r)
    {
      ghost var h0, strict := heap, threads == [];
      var roots := heap.gcRoots;
      NothingVisited(h0, roots[..0], natives, strict);
      trace := [heap];
      for i := 0 to |roots|
        invariant OnlyTables(h0, heap) && RootsVisited(h0, heap, roots[..i], natives, strict)
        invariant IsTrace(trace, h0, heap, roots[..i], natives, threads, threadName)
        invariant forall j :: 0 <= j < i ==> !FatalRoot(h0, roots[j])
      {
        ghost var h1 := heap;
        ok := VisitRoot(roots[i], natives, threads, threadName, rank);
        assert FatalRoot(h1, roots[i]) == FatalRoot(h0, roots[i]);
        if !ok { return; }
        VisitOneMore(h0, h1, heap, roots, i, natives, strict);
        TraceMore(trace, h0, h1, heap, roots, i, natives, threads, threadName);
        trace := trace + [heap];
      }
      assert roots[..|roots|] == roots;
      ok := true;
    }

    /** The whole pass, with the matchers already resolved.  When no thread is
        excluded, the edges and labels that remain are exactly those of `LazyOutcome`. */
    method LazyParse(ms: seq<Matcher>, natives: seq<Id>, threads: seq<Option<seq<byte>>>,
                     threadName: (Heap, Id) -> Option<seq<byte>>, ghost rank: Id -> nat)
      returns (ok: bool)
      requires Ranked(heap.inheritance, rank)
      modifies this
      ensures ok ==> OnlyTables(old(heap), heap)
      ensures ok && threads == [] ==> LazyOutcome(old(heap), heap, ms, natives)
      ensures ok ==> PassRan(old(heap), heap, ms, natives, threads, threadName)
      ensures ok <==> !PassFails(old(heap), ms)
    {
      ghost var h0 := heap;
      ok := InstancePass(ms, rank);
      if !ok { return; }
      ghost var h1 := heap;
      ghost var trace;
      assert InstancesRead(h0, h1, ms);
      ok, trace := GcRootPass(natives, threads, threadName, rank);
      RootsDecide(h0, h1, ms);
      if !ok { return; }
      assert IsTrace(trace, h1, heap, h0.gcRoots, natives, threads, threadName);
      if threads == [] {
        PassOutcome(h0, h1, heap, ms, natives);
      }
    }

    method VisitRoot(root: Id, natives: seq<Id>, threads: seq<Option<seq<byte>>>,
                     threadName: (Heap, Id) -> Option<seq<byte>>, ghost rank: Id -> nat)
      returns (ok: bool)
      requires Ranked(heap.inheritance, rank)
      modifies this
      ensures OnlyTables(old(heap), heap)
      ensures ok && root in old(heap).gcRoots ==> VisitedOne(old(heap), heap, root, natives, threads == [])
      ensures ok == !FatalRoot(old(heap), root)
      ensures ok && root in old(heap).gcRoots ==> VisitedExactly(old(heap), heap, root, natives, threads, threadName)
    {
      if root !in heap.gcRootTypes {
        return false;
      }
      if heap.gcRootTypes[root].JavaFrame? {
        if root !in heap.threadSerials || heap.threadSerials[root] !in heap.threadObjects {
          return false;
        }
        match threadName(heap, heap.threadObjects[heap.threadSerials[root]]) {
          case None => return true;
          case Some(name) =>
            for i := 0 to |threads|
              invariant heap == old(heap)
              invariant forall k :: 0 <= k < i ==> !(threads[k].None? || threads[k].value == name)
            {
              if threads[i].None? || threads[i].value == name {
                ExcludeReferences(root);
                break;
              }
            }
        }
      } else if heap.gcRootTypes[root].JniGlobal? {
        NativeRoot(root, natives, rank);
      }
      ok := true;
    }

    method NativeRoot(root: Id, natives: seq<Id>, ghost rank: Id -> nat)
      requires Ranked(heap.inheritance, rank)
      modifies this
      ensures OnlyTables(old(heap), heap)
      ensures forall a :: a != root ==> Stayed(old(heap), heap, a)
      ensures if NativeHit(old(heap), natives, root) then Moved(old(heap), heap, root) else Stayed(old(heap), heap, root)
    {
      ghost var h0 := heap;
      for i := 0 to |natives|
        invariant OnlyTables(h0, heap)
        invariant forall a :: a != root ==> Stayed(h0, heap, a)
        invariant if NativeHit(h0, natives[..i], root) then Moved(h0, heap, root) else Stayed(h0, heap, root)
      {
        var hit := natives[i] == 0;
        if !hit && root in heap.instanceClasses {
          hit := ChildClassOf(heap.inheritance, heap.instanceClasses[root], natives[i], rank);
        }
        assert hit == (natives[i] == 0 || InstanceOf(h0, root, natives[i]));
        NativeHitSnoc(h0, natives, i, root);
        if hit {
          ghost var h1 := heap;
          ExcludeReferences(root);
          MoveTwice(h0, h1, heap, root);
          forall a | a != root ensures Stayed(h0, heap, a) {
            assert Stayed(h0, h1, a) && Stayed(h1, heap, a);
          }
        }
      }
      assert natives[..|natives|] == natives;
    }
  }

  /** Where `a` stands once the roots `seen` have been visited; `strict` says that no
      thread is excluded. */
  ghost predicate Visited(h: Heap, h': Heap, seen: seq<Id>, natives: seq<Id>, strict: bool, a: Id) {
    && (Moved(h, h', a) || Stayed(h, h', a))
    && (a !in seen ==> Stayed(h, h', a))
    && (strict ==> if a in seen && DroppedRoot(h, natives, a) then Moved(h, h', a) else Stayed(h, h', a))
  }

  ghost predicate RootsVisited(h: Heap, h': Heap, seen: seq<Id>, natives: seq<Id>, strict: bool) {
    forall a {:trigger Visited(h, h', seen, natives, strict, a)} :: Visited(h, h', seen, natives, strict, a)
  }

  ghost predicate VisitedOne(h: Heap, h': Heap, root: Id, natives: seq<Id>, strict: bool) {
    && (forall a {:trigger Stayed(h, h', a)} :: a != root ==> Stayed(h, h', a))
    && (Moved(h, h', root) || Stayed(h, h', root))
    && (strict ==> if DroppedRoot(h, natives, root) then Moved(h, h', root) else Stayed(h, h', root))
  }

  /** One root: its row moves if and only if a native-global or a thread matcher, looked
      up in the heap as it is at that moment, covers it. */
  ghost predicate VisitedExactly(h: Heap, h': Heap, root: Id, natives: seq<Id>, threads: seq<Option<seq<byte>>>,
                                 threadName: (Heap, Id) -> Option<seq<byte>>)
  {
    && OnlyTables(h, h')
    && (forall a {:trigger Stayed(h, h', a)} :: a != root ==> Stayed(h, h', a))
    && if DroppedRoot(h, natives, root) || ThreadHit(h, threads, threadName, root) then Moved(h, h', root)
       else Stayed(h, h', root)
  }

  /** The heaps before, between and after the visits of `roots`. */
  ghost predicate IsTrace(trace: seq<Heap>, h: Heap, h': Heap, roots: seq<Id>, natives: seq<Id>,
                          threads: seq<Option<seq<byte>>>, threadName: (Heap, Id) -> Option<seq<byte>>)
  {
    && |trace| == |roots| + 1 && trace[0] == h && trace[|roots|] == h'
    && forall i :: 0 <= i < |roots| ==> VisitedExactly(trace[i], trace[i + 1], roots[i], natives, threads, threadName)
  }

  /** The whole pass, thread matchers included: every instance is read, then the roots
      are visited one after the other. */
  ghost predicate PassRan(h: Heap, h': Heap, ms: seq<Matcher>, natives: seq<Id>, threads: seq<Option<seq<byte>>>,
                          threadName: (Heap, Id) -> Option<seq<byte>>)
  {
    exists mid, trace :: && InstancesRead(h, mid, ms)
                         && IsTrace(trace, mid, h', h.gcRoots, natives, threads, threadName)
  }

  ghost predicate InstancesRead(h: Heap, h': Heap, ms: seq<Matcher>) {
    OnlyTables(h, h') && forall a :: RowsAfter(h, h', ms, a)
  }

  /** Once all instances are read, the roots decide whether the pass fails. */
  lemma RootsDecide(h: Heap, h1: Heap, ms: seq<Matcher>)
    requires InstancesRead(h, h1, ms)
    ensures PassFails(h, ms) <==> exists r :: r in h1.gcRoots && FatalRoot(h1, r)
  {
    forall x | x in h.fieldsData ensures RunInstance(h, ms, x).Done? {
      assert RowsAfter(h, h1, ms, x);
    }
    forall r ensures FatalRoot(h1, r) == FatalRoot(h, r) {}
  }

  lemma PassOutcome(h: Heap, h1: Heap, h2: Heap, ms: seq<Matcher>, natives: seq<Id>)
    requires InstancesRead(h, h1, ms) && OnlyTables(h1, h2) && RootsVisited(h1, h2, h1.gcRoots, natives, true)
    ensures LazyOutcome(h, h2, ms, natives)
  {
    forall a, b ensures LeftAt(h, h2, ms, natives, a, b) {
      assert RowsAfter(h, h1, ms, a) && Visited(h1, h2, h1.gcRoots, natives, true, a);
      LeakEdgesLeft(h, h1, h2, ms, natives, a, b);
    }
  }

  lemma TraceMore(trace: seq<Heap>, h: Heap, h1: Heap, h2: Heap, roots: seq<Id>, i: nat, natives: seq<Id>,
                  threads: seq<Option<seq<byte>>>, threadName: (Heap, Id) -> Option<seq<byte>>)
    requires i < |roots| && IsTrace(trace, h, h1, roots[..i], natives, threads, threadName)
    requires VisitedExactly(h1, h2, roots[i], natives, threads, threadName)
    ensures IsTrace(trace + [h2], h, h2, roots[..i + 1], natives, threads, threadName)
  {
    var more, rs := trace + [h2], roots[..i + 1];
    forall j | 0 <= j < |rs| ensures VisitedExactly(more[j], more[j + 1], rs[j], natives, threads, threadName) {
      if j < i {
        assert roots[..i][j] == rs[j];
        assert VisitedExactly(trace[j], trace[j + 1], roots[..i][j], natives, threads, threadName);
      }
    }
  }

  lemma NothingVisited(h: Heap, seen: seq<Id>, natives: seq<Id>, strict: bool)
    requires seen == []
    ensures RootsVisited(h, h, seen, natives, strict)
  {
    forall a ensures Visited(h, h, seen, natives, strict, a) {}
  }

  lemma VisitOneMore(h: Heap, h1: Heap, h2: Heap, roots: seq<Id>, i: nat, natives: seq<Id>, strict: bool)
    requires i < |roots| && roots == h.gcRoots && OnlyTables(h, h1)
    requires RootsVisited(h, h1, roots[..i], natives, strict) && VisitedOne(h1, h2, roots[i], natives, strict)
    ensures RootsVisited(h, h2, roots[..i + 1], natives, strict)
  {
    var seen, more := roots[..i], roots[..i + 1];
    assert more == seen + [roots[i]];
    forall a ensures Visited(h, h2, more, natives, strict, a) {
      assert Visited(h, h1, seen, natives, strict, a);
      assert a in more <==> a in seen || a == roots[i];
      VisitAt(h, h1, h2, seen, more, roots[i], natives, strict, a);
    }
  }

  lemma VisitAt(h: Heap, h1: Heap, h2: Heap, seen: seq<Id>, more: seq<Id>, root: Id, natives: seq<Id>, strict: bool, a: Id)
    requires OnlyTables(h, h1) && Visited(h, h1, seen, natives, strict, a) && VisitedOne(h1, h2, root, natives, strict)
    requires a in more <==> a in seen || a == root
    ensures Visited(h, h2, more, natives, strict, a)
  {
    assert a != root ==> Stayed(h1, h2, a);
    MoveTwice(h, h1, h2, a);
    DroppedSame(h, h1, natives, a);
  }

  lemma EdgesLeft(h: Heap, h': Heap, natives: seq<Id>, a: Id, b: Id)
    requires Visited(h, h', h.gcRoots, natives, true, a)
    ensures Edge(h'.references, a, b) <==> !DroppedRoot(h, natives, a) && Edge(h.references, a, b)
    ensures Edge(h'.references, a, b) ==> h'.references[a][b] == h.references[a][b]
    ensures Edge(h'.excluded, a, b) <==> Edge(h.excluded, a, b) || (DroppedRoot(h, natives, a) && Edge(h.references, a, b))
  {
    EdgeInRow(h'.references, a, b);
    EdgeInRow(h.references, a, b);
    EdgeInRow(h'.excluded, a, b);
    EdgeInRow(h.excluded, a, b);
    assert Edge(h'.references, a, b) ==> Row(h'.references, a)[b] == Row(h.references, a)[b];
  }

  lemma EdgeInRow(g: Graph, a: Id, b: Id)
    ensures Edge(g, a, b) <==> b in Row(g, a)
  {}

  lemma DroppedSame(h: Heap, h1: Heap, natives: seq<Id>, a: Id)
    requires OnlyTables(h, h1)
    ensures DroppedRoot(h1, natives, a) == DroppedRoot(h, natives, a)
  {}

  lemma LeakEdgesLeft(h: Heap, h1: Heap, h2: Heap, ms: seq<Matcher>, natives: seq<Id>, a: Id, b: Id)
    requires OnlyTables(h, h1) && RowsAfter(h, h1, ms, a) && Visited(h1, h2, h1.gcRoots, natives, true, a)
    ensures LeftAt(h, h2, ms, natives, a, b)
  {
    RowsAfterEdges(h, h1, ms, a, b);
    EdgesLeft(h1, h2, natives, a, b);
    DroppedSame(h, h1, natives, a);
  }

  lemma NativeHitSnoc(h: Heap, natives: seq<Id>, i: nat, root: Id)
    requires i < |natives|
    ensures NativeHit(h, natives[..i + 1], root)
       <==> NativeHit(h, natives[..i], root) || natives[i] == 0 || InstanceOf(h, root, natives[i])
  {
    var s, t := natives[..i], natives[..i + 1];
    if NativeHit(h, s, root) {
      var k :| 0 <= k < |s| && (s[k] == 0 || InstanceOf(h, root, s[k]));
      assert t[k] == s[k];
    }
    assert t[i] == natives[i];
    if NativeHit(h, t, root) {
      var k :| 0 <= k < |t| && (t[k] == 0 || InstanceOf(h, root, t[k]));
      assert k < i ==> s[k] == t[k];
    }
  }

  /** Adds a whole row of references to `r`. */
  method AddAll(g: Graph, r: Id, row: map<Id, Reference>) returns (g': Graph)
    ensures Row(g', r) == Row(g, r) + row
    ensures forall a :: a != r ==> Row(g', a) == Row(g, a)
  {
    g' := g;
    var rest := row.Keys;
    assert Row(g, r) + (row - rest) == Row(g, r);
    while rest != {}
      invariant rest <= row.Keys
      invariant forall a :: a != r ==> Row(g', a) == Row(g, a)
      invariant Row(g', r) == Row(g, r) + (row - rest)
    {
      var x := Pick(rest);
      ghost var g1 := g';
      g' := AddEdge(g', r, row[x], x);
      forall a ensures Row(g', a) == if a == r then Row(g1, r)[x := row[x]] else Row(g1, a) {
        AddEdgeRow(g1, r, row[x], x, a);
      }
      MoveOne(Row(g, r), row, rest, x);
      rest := rest - {x};
    }
    assert row - rest == row;
  }

  lemma MoveOne(e: map<Id, Reference>, row: map<Id, Reference>, rest: set<Id>, x: Id)
    requires rest <= row.Keys && x in rest
    ensures (e + (row - rest))[x := row[x]] == e + (row - (rest - {x}))
  {}
}
