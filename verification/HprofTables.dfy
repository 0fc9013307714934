module HprofTables {
  // The tables of a parsed heap, said of the list of its sub-records alone: which
  // entry of which record ends up in which table, whatever the steps that put it there.

  import opened HprofHeap
  import opened HprofReader
  import opened HprofFormat
  import opened HprofDump

  // ----- tables in which the last or the first entry for a key stays

  type Entries<K, V> = seq<Option<(K, V)>>

  ghost predicate Hits<K, V>(es: Entries<K, V>, i: int, k: K) {
    0 <= i < |es| && es[i].Some? && es[i].value.0 == k
  }

  ghost predicate LastHit<K, V>(es: Entries<K, V>, i: int, k: K) {
    Hits(es, i, k) && forall j :: i < j ==> !Hits(es, j, k)
  }

  ghost predicate FirstHit<K, V>(es: Entries<K, V>, i: int, k: K) {
    Hits(es, i, k) && forall j :: j < i ==> !Hits(es, j, k)
  }

  ghost predicate LastAt<K, V>(m: map<K, V>, es: Entries<K, V>, k: K) {
    && (k in m <==> exists i :: Hits(es, i, k))
    && (k in m ==> exists i :: LastHit(es, i, k) && es[i].value.1 == m[k])
  }

  ghost predicate FirstAt<K, V>(m: map<K, V>, es: Entries<K, V>, k: K) {
    && (k in m <==> exists i :: Hits(es, i, k))
    && (k in m ==> exists i :: FirstHit(es, i, k) && es[i].value.1 == m[k])
  }

  /** The table holds, for every key, the last entry with it. */
  ghost predicate LastStays<K(!new), V>(m: map<K, V>, es: Entries<K, V>) {
    forall k {:trigger LastAt(m, es, k)} :: LastAt(m, es, k)
  }

  /** The table holds, for every key, the first entry with it. */
  ghost predicate FirstStays<K(!new), V>(m: map<K, V>, es: Entries<K, V>) {
    forall k {:trigger FirstAt(m, es, k)} :: FirstAt(m, es, k)
  }

  function Put<K, V>(m: map<K, V>, e: Option<(K, V)>): map<K, V> {
    if e.None? then m else m[e.value.0 := e.value.1]
  }

  function PutNew<K, V>(m: map<K, V>, e: Option<(K, V)>): map<K, V> {
    if e.None? || e.value.0 in m then m else m[e.value.0 := e.value.1]
  }

  lemma HitsSnoc<K, V>(es: Entries<K, V>, e: Option<(K, V)>, k: K)
    ensures forall i :: 0 <= i < |es| ==> Hits(es + [e], i, k) == Hits(es, i, k)
    ensures Hits(es + [e], |es|, k) <==> e.Some? && e.value.0 == k
    ensures forall i :: Hits(es + [e], i, k) ==> i <= |es|
  {}

  lemma LastSnoc<K(!new), V>(m: map<K, V>, es: Entries<K, V>, e: Option<(K, V)>)
    requires LastStays(m, es)
    ensures LastStays(Put(m, e), es + [e])
  {
    forall k ensures LastAt(Put(m, e), es + [e], k) {
      assert LastAt(m, es, k);
      HitsSnoc(es, e, k);
      if e.Some? && e.value.0 == k {
        assert LastHit(es + [e], |es|, k);
      } else if k in m {
        var i :| LastHit(es, i, k) && es[i].value.1 == m[k];
        assert LastHit(es + [e], i, k);
      }
    }
  }

  lemma FirstSnoc<K(!new), V>(m: map<K, V>, es: Entries<K, V>, e: Option<(K, V)>)
    requires FirstStays(m, es)
    ensures FirstStays(PutNew(m, e), es + [e])
  {
    forall k ensures FirstAt(PutNew(m, e), es + [e], k) {
      assert FirstAt(m, es, k);
      HitsSnoc(es, e, k);
      if k in m {
        var i :| FirstHit(es, i, k) && es[i].value.1 == m[k];
        assert FirstHit(es + [e], i, k);
      } else if e.Some? && e.value.0 == k {
        assert FirstHit(es + [e], |es|, k);
      }
    }
  }

  lemma NoEntries<K(!new), V>()
    ensures LastStays<K, V>(map[], []) && FirstStays<K, V>(map[], [])
  {
    forall k: K ensures LastAt<K, V>(map[], [], k) && FirstAt<K, V>(map[], [], k) {}
  }

  // ----- what one sub-record puts into each table

  function SuperEntry(r: SubRecord): Option<(Id, Id)> {
    if r.ClassDump? then Some((r.id, r.super)) else None
  }

  function TypeEntry(r: SubRecord): Option<(Id, ObjectType)> {
    match r
    case ClassDump(c, _, _, _, _, _, _) => Some((c, Class))
    case InstanceDump(x, _, _, _) => Some((x, Instance))
    case ObjectArrayDump(a, _, _, _) => Some((a, ObjectArray))
    case PrimitiveArrayDump(a, _, _, _, _) => Some((a, PrimitiveArray))
    case NoDataArray(a, _) => Some((a, PrimitiveArray))
    case _ => None
  }

  function ClassEntry(r: SubRecord): Option<(Id, Id)> {
    if r.InstanceDump? || r.ObjectArrayDump? then Some((r.id, r.classId)) else None
  }

  function DataEntry(r: SubRecord): Option<(Id, FieldsData)> {
    if r.InstanceDump? then Some((r.id, FieldsData(r.classId, r.data))) else None
  }

  function ArrayEntry(r: SubRecord): Option<(Id, ArrayData)> {
    if r.PrimitiveArrayDump? then Some((r.id, ArrayData(r.typ, r.data))) else None
  }

  function RootEntry(r: SubRecord): Option<(Id, RootType)> {
    if r.Root? && r.id != 0 then Some((r.id, r.kind)) else None
  }

  function Number4(a: int, b: int, c: int, d: int): int {
    a * 0x100_0000 + b * 0x1_0000 + c * 0x100 + d
  }

  /** The number in the first four bytes after the id. */
  function ThreadSerial(extra: seq<byte>): int {
    if |extra| < 4 then 0 else Number4(extra[0], extra[1], extra[2], extra[3])
  }

  function SerialEntry(r: SubRecord): Option<(Id, int)> {
    if r.Root? && r.id != 0 && r.kind.JavaFrame? then Some((r.id, ThreadSerial(r.extra))) else None
  }

  function ThreadEntry(r: SubRecord): Option<(int, Id)> {
    if r.Root? && r.id != 0 && r.kind.ThreadObject? then Some((ThreadSerial(r.extra), r.id)) else None
  }

  /** The fields that a record gives class `c`. */
  function FieldList(r: SubRecord, c: Id): seq<Field> {
    if r.ClassDump? && r.id == c then r.fields else []
  }

  function RootList(r: SubRecord): seq<Id> {
    if r.Root? && r.id != 0 then [r.id] else []
  }

  /** The references in a record, with their labels, in order. */
  function EdgeList(r: SubRecord): Entries<(Id, Id), Reference> {
    match r
    case ClassDump(c, _, _, _, _, statics, _) => StaticEdges(c, statics)
    case ObjectArrayDump(a, _, _, elements) => ElementEdges(a, 0, elements)
    case _ => []
  }

  function StaticEdges(c: Id, ss: seq<Static>): (r: Entries<(Id, Id), Reference>)
    ensures |r| == |ss|
  {
    seq(|ss|, i requires 0 <= i < |ss| =>
      if ss[i].typ.Object? then Some(((c, Value(ss[i].value, 0, |ss[i].value|)), Reference(StaticField, 0, ss[i].name)))
      else None)
  }

  function ElementEdges(a: Id, from: nat, xs: seq<Id>): (r: Entries<(Id, Id), Reference>)
    ensures |r| == |xs|
  {
    seq(|xs|, i requires 0 <= i < |xs| => Some(((a, xs[i]), Reference(ArrayElement, from + i, 0))))
  }

  // ----- all sub-records

  function Each<K, V>(rs: seq<SubRecord>, f: SubRecord -> Option<(K, V)>): (es: Entries<K, V>)
    ensures |es| == |rs| && forall i :: 0 <= i < |rs| ==> es[i] == f(rs[i])
  {
    seq(|rs|, i requires 0 <= i < |rs| => f(rs[i]))
  }

  function AllFields(rs: seq<SubRecord>, c: Id): seq<Field> {
    if rs == [] then [] else AllFields(rs[..|rs| - 1], c) + FieldList(rs[|rs| - 1], c)
  }

  function AllRoots(rs: seq<SubRecord>): seq<Id> {
    if rs == [] then [] else AllRoots(rs[..|rs| - 1]) + RootList(rs[|rs| - 1])
  }

  function AllEdges(rs: seq<SubRecord>): Entries<(Id, Id), Reference> {
    if rs == [] then [] else AllEdges(rs[..|rs| - 1]) + EdgeList(rs[|rs| - 1])
  }

  /** Between any two objects there is an edge if some record has such a reference, and
      it carries the label of the last one. */
  ghost predicate EdgeAt(g: Graph, es: Entries<(Id, Id), Reference>, a: Id, b: Id) {
    && (Edge(g, a, b) <==> exists i :: Hits(es, i, (a, b)))
    && (Edge(g, a, b) ==> exists i :: LastHit(es, i, (a, b)) && es[i].value.1 == g[a][b])
  }

  ghost predicate LastEdges(g: Graph, es: Entries<(Id, Id), Reference>) {
    forall a, b {:trigger EdgeAt(g, es, a, b)} :: EdgeAt(g, es, a, b)
  }

  ghost predicate FieldsListed(m: map<Id, seq<Field>>, rs: seq<SubRecord>, c: Id) {
    if AllFields(rs, c) == [] then c !in m else c in m && m[c] == AllFields(rs, c)
  }

  /** The tables of objects and classes: the last class, type and super stay, the first
      field data and array data stay, and the fields of a class are listed in order. */
  ghost predicate ObjectTables(h: Heap, rs: seq<SubRecord>) {
    && LastStays(h.inheritance, Each(rs, SuperEntry))
    && LastStays(h.instanceTypes, Each(rs, TypeEntry))
    && LastStays(h.instanceClasses, Each(rs, ClassEntry))
    && FirstStays(h.fieldsData, Each(rs, DataEntry))
    && FirstStays(h.primitiveArrays, Each(rs, ArrayEntry))
    && (forall c {:trigger FieldsListed(h.instanceFields, rs, c)} :: FieldsListed(h.instanceFields, rs, c))
    && LastEdges(h.references, AllEdges(rs))
  }

  /** The tables of roots and threads: roots in order, the last type and thread stay. */
  ghost predicate RootTables(h: Heap, rs: seq<SubRecord>) {
    && h.gcRoots == AllRoots(rs)
    && LastStays(h.gcRootTypes, Each(rs, RootEntry))
    && LastStays(h.threadSerials, Each(rs, SerialEntry))
    && LastStays(h.threadObjects, Each(rs, ThreadEntry))
  }

  // ----- one step

  lemma EachSnoc<K, V>(rs: seq<SubRecord>, r: SubRecord, f: SubRecord -> Option<(K, V)>)
    ensures Each(rs + [r], f) == Each(rs, f) + [f(r)]
  {}

  lemma {:induction false} StaticsOnly(h: Heap, c: Id, ss: seq<Static>)
    ensures ApplyStatics(h, c, ss) == h.(references := ApplyStatics(h, c, ss).references)
    decreases |ss|
  {
    if ss != [] { StaticsOnly(ApplyStatic(h, c, ss[0].name, ss[0].typ, ss[0].value), c, ss[1..]); }
  }

  lemma {:induction false} FieldsOnly(h: Heap, c: Id, fs: seq<Field>)
    ensures ApplyFields(h, c, fs) == h.(instanceFields := ApplyFields(h, c, fs).instanceFields)
    ensures var m, m' := h.instanceFields, ApplyFields(h, c, fs).instanceFields;
            m' == if fs == [] then m else m[c := (if c in m then m[c] else []) + fs]
    decreases |fs|
  {
    if fs != [] {
      var h1 := AddField(h, c, fs[0]);
      FieldsOnly(h1, c, fs[1..]);
      var known := if c in h.instanceFields then h.instanceFields[c] else [];
      assert (known + [fs[0]]) + fs[1..] == known + fs;
      assert known + fs == (known + [fs[0]]) + fs[1..] && (fs[1..] == [] ==> known + [fs[0]] == known + fs);
    }
  }

  lemma {:induction false} ElementsOnly(h: Heap, a: Id, i: nat, xs: seq<Id>)
    ensures ApplyElements(h, a, i, xs) == h.(references := ApplyElements(h, a, i, xs).references)
    decreases |xs|
  {
    if xs != [] { ElementsOnly(AddReference(h, a, ElementRef(i), xs[0]), a, i + 1, xs[1..]); }
  }

  lemma SerialIs(extra: seq<byte>)
    ensures Serial(extra) == ThreadSerial(extra)
  {
    if |extra| >= 4 {
      var a: int, b: int, c: int := extra[0], extra[1], extra[2];
      assert Value(extra, 0, 0) == 0;
      assert Value(extra, 0, 1) == a;
      assert Value(extra, 0, 2) == a * 256 + b;
      assert Value(extra, 0, 3) == (a * 256 + b) * 256 + c;
    }
  }

  /** What one sub-record does to the tables that keep the last or the first entry. */
  ghost predicate Stepped(h: Heap, r: SubRecord, h': Heap) {
    && h'.inheritance == Put(h.inheritance, SuperEntry(r))
    && h'.instanceTypes == Put(h.instanceTypes, TypeEntry(r))
    && h'.instanceClasses == Put(h.instanceClasses, ClassEntry(r))
    && h'.fieldsData == PutNew(h.fieldsData, DataEntry(r))
    && h'.primitiveArrays == PutNew(h.primitiveArrays, ArrayEntry(r))
    && h'.gcRoots == h.gcRoots + RootList(r)
    && h'.gcRootTypes == Put(h.gcRootTypes, RootEntry(r))
    && h'.threadSerials == Put(h.threadSerials, SerialEntry(r))
    && h'.threadObjects == Put(h.threadObjects, ThreadEntry(r))
  }

  /** What no sub-record touches. */
  ghost predicate Untouched(h: Heap, h': Heap) {
    && h'.idSize == h.idSize && h'.strings == h.strings && h'.classNames == h.classNames
    && h'.primitives == h.primitives && h'.excluded == h.excluded
  }

  lemma NullRootStep(h: Heap, r: SubRecord)
    requires r.Root? && r.id == 0
    ensures ApplySub(h, r) == h && Stepped(h, r, h)
  {}

  lemma PlainRootStep(h: Heap, r: SubRecord)
    requires r.Root? && r.id != 0 && !r.kind.JavaFrame? && !r.kind.ThreadObject?
    ensures Stepped(h, r, ApplySub(h, r))
  {
    assert ApplySub(h, r) == MarkRoot(h, r.id, r.kind);
  }

  lemma FrameStep(h: Heap, r: SubRecord)
    requires r.Root? && r.id != 0 && r.kind.JavaFrame?
    ensures Stepped(h, r, ApplySub(h, r))
  {
    SerialIs(r.extra);
    var h1 := MarkRoot(h, r.id, r.kind);
    assert ApplySub(h, r) == h1.(threadSerials := h1.threadSerials[r.id := ThreadSerial(r.extra)]);
  }

  lemma ThreadStep(h: Heap, r: SubRecord)
    requires r.Root? && r.id != 0 && r.kind.ThreadObject?
    ensures Stepped(h, r, ApplySub(h, r))
  {
    SerialIs(r.extra);
    var h1 := MarkRoot(h, r.id, r.kind);
    assert ApplySub(h, r) == h1.(threadObjects := h1.threadObjects[ThreadSerial(r.extra) := r.id]);
  }

  lemma RootOnly(h: Heap, r: SubRecord)
    requires r.Root?
    ensures Untouched(h, ApplySub(h, r))
    ensures ApplySub(h, r).references == h.references && ApplySub(h, r).instanceFields == h.instanceFields
  {
    ApplyRootOnly(h, r.kind, r.id, Serial(r.extra));
  }

  lemma ApplyRootOnly(h: Heap, t: RootType, x: Id, serial: int)
    ensures var h' := ApplyRoot(h, t, x, serial);
            Untouched(h, h') && h'.references == h.references && h'.instanceFields == h.instanceFields
  {
    var h' := ApplyRoot(h, t, x, serial);
    assert h' == h.(gcRoots := h'.gcRoots, gcRootTypes := h'.gcRootTypes, threadSerials := h'.threadSerials,
                    threadObjects := h'.threadObjects);
  }

  lemma RootStep(h: Heap, r: SubRecord)
    requires r.Root?
    ensures Stepped(h, r, ApplySub(h, r))
  {
    if r.id == 0 {
      NullRootStep(h, r);
    } else if r.kind.JavaFrame? {
      FrameStep(h, r);
    } else if r.kind.ThreadObject? {
      ThreadStep(h, r);
    } else {
      PlainRootStep(h, r);
    }
  }

  lemma ClassStep(h: Heap, r: SubRecord)
    requires r.ClassDump?
    ensures Stepped(h, r, ApplySub(h, r)) && Untouched(h, ApplySub(h, r))
    ensures ApplySub(h, r).references == ApplyStatics(ClassHead(h, r.id, r.super), r.id, r.statics).references
    ensures ApplySub(h, r).instanceFields == ApplyFields(h, r.id, r.fields).instanceFields
  {
    var h1 := ClassHead(h, r.id, r.super);
    var h2 := ApplyStatics(h1, r.id, r.statics);
    StaticsOnly(h1, r.id, r.statics);
    FieldsOnly(h2, r.id, r.fields);
    FieldsOnly(h, r.id, r.fields);
  }

  lemma ArrayStep(h: Heap, r: SubRecord)
    requires r.ObjectArrayDump?
    ensures Stepped(h, r, ApplySub(h, r)) && Untouched(h, ApplySub(h, r))
    ensures ApplySub(h, r).instanceFields == h.instanceFields
  {
    ElementsOnly(ArrayHead(h, r.id, r.classId), r.id, 0, r.elements);
  }

  lemma InstanceStep(h: Heap, r: SubRecord)
    requires r.InstanceDump?
    ensures Stepped(h, r, ApplySub(h, r))
  {
    assert ApplySub(h, r) == ApplyInstance(h, r.id, r.classId, r.data);
  }

  lemma PrimitiveArrayStep(h: Heap, r: SubRecord)
    requires r.PrimitiveArrayDump?
    ensures Stepped(h, r, ApplySub(h, r))
  {
    assert ApplySub(h, r) == ApplyPrimitiveArray(h, r.id, ArrayData(r.typ, r.data));
  }

  lemma NoDataStep(h: Heap, r: SubRecord)
    requires r.NoDataArray?
    ensures Stepped(h, r, ApplySub(h, r))
  {
    assert ApplySub(h, r) == h.(instanceTypes := h.instanceTypes[r.id := PrimitiveArray]);
  }

  lemma InfoStep(h: Heap, r: SubRecord)
    requires r.DumpInfo?
    ensures Stepped(h, r, ApplySub(h, r))
  {
    assert ApplySub(h, r) == h;
  }

  lemma OtherOnly(h: Heap, r: SubRecord)
    requires !r.Root? && !r.ClassDump? && !r.ObjectArrayDump?
    ensures Untouched(h, ApplySub(h, r))
    ensures ApplySub(h, r).references == h.references && ApplySub(h, r).instanceFields == h.instanceFields
  {}

  lemma SubStep(h: Heap, r: SubRecord)
    ensures Stepped(h, r, ApplySub(h, r)) && Untouched(h, ApplySub(h, r))
  {
    if r.Root? {
      RootStep(h, r);
      RootOnly(h, r);
    } else if r.ClassDump? {
      ClassStep(h, r);
    } else if r.ObjectArrayDump? {
      ArrayStep(h, r);
    } else {
      OtherOnly(h, r);
      if r.InstanceDump? {
        InstanceStep(h, r);
      } else if r.PrimitiveArrayDump? {
        PrimitiveArrayStep(h, r);
      } else if r.NoDataArray? {
        NoDataStep(h, r);
      } else {
        InfoStep(h, r);
      }
    }
  }

  // ----- edges, one at a time

  lemma EdgeSnoc(g: Graph, es: Entries<(Id, Id), Reference>, x: Id, y: Id, l: Reference)
    requires LastEdges(g, es)
    ensures LastEdges(AddEdge(g, x, l, y), es + [Some(((x, y), l))])
  {
    var e := Some(((x, y), l));
    var g' := AddEdge(g, x, l, y);
    forall a, b ensures EdgeAt(g', es + [e], a, b) {
      assert EdgeAt(g, es, a, b);
      HitsSnoc(es, e, (a, b));
      assert Edge(g', a, b) <==> Edge(g, a, b) || (a, b) == (x, y);
      if (a, b) == (x, y) {
        assert LastHit(es + [e], |es|, (a, b)) && g'[a][b] == l;
      } else if Edge(g, a, b) {
        var i :| LastHit(es, i, (a, b)) && es[i].value.1 == g[a][b];
        assert LastHit(es + [e], i, (a, b)) && g'[a][b] == g[a][b];
      }
    }
  }

  lemma NoEdgeSnoc(g: Graph, es: Entries<(Id, Id), Reference>)
    requires LastEdges(g, es)
    ensures LastEdges(g, es + [None])
  {
    forall a, b ensures EdgeAt(g, es + [None], a, b) {
      assert EdgeAt(g, es, a, b);
      HitsSnoc(es, None, (a, b));
      if Edge(g, a, b) {
        var i :| LastHit(es, i, (a, b)) && es[i].value.1 == g[a][b];
        assert LastHit(es + [None], i, (a, b));
      }
    }
  }

  lemma {:induction false} StaticsEdges(h: Heap, c: Id, ss: seq<Static>, es: Entries<(Id, Id), Reference>)
    requires LastEdges(h.references, es)
    ensures LastEdges(ApplyStatics(h, c, ss).references, es + StaticEdges(c, ss))
    decreases |ss|
  {
    if ss == [] {
      assert es + StaticEdges(c, ss) == es;
    } else {
      var s := ss[0];
      var e := StaticEdges(c, ss)[0];
      if s.typ.Object? {
        EdgeSnoc(h.references, es, c, Value(s.value, 0, |s.value|), Reference(StaticField, 0, s.name));
      } else {
        NoEdgeSnoc(h.references, es);
      }
      StaticsEdges(ApplyStatic(h, c, s.name, s.typ, s.value), c, ss[1..], es + [e]);
      assert (es + [e]) + StaticEdges(c, ss[1..]) == es + StaticEdges(c, ss);
    }
  }

  lemma {:induction false} ElementsEdges(h: Heap, a: Id, i: nat, xs: seq<Id>, es: Entries<(Id, Id), Reference>)
    requires LastEdges(h.references, es)
    ensures LastEdges(ApplyElements(h, a, i, xs).references, es + ElementEdges(a, i, xs))
    decreases |xs|
  {
    if xs == [] {
      assert es + ElementEdges(a, i, xs) == es;
    } else {
      var e := ElementEdges(a, i, xs)[0];
      EdgeSnoc(h.references, es, a, xs[0], Reference(ArrayElement, i, 0));
      ElementsEdges(AddReference(h, a, ElementRef(i), xs[0]), a, i + 1, xs[1..], es + [e]);
      assert (es + [e]) + ElementEdges(a, i + 1, xs[1..]) == es + ElementEdges(a, i, xs);
    }
  }

  lemma SubEdges(h: Heap, r: SubRecord, es: Entries<(Id, Id), Reference>)
    requires LastEdges(h.references, es)
    ensures LastEdges(ApplySub(h, r).references, es + EdgeList(r))
  {
    if r.ClassDump? {
      ClassStep(h, r);
      StaticsEdges(ClassHead(h, r.id, r.super), r.id, r.statics, es);
    } else if r.ObjectArrayDump? {
      ElementsEdges(ArrayHead(h, r.id, r.classId), r.id, 0, r.elements, es);
    } else {
      assert es + EdgeList(r) == es;
      if r.Root? { RootOnly(h, r); } else { OtherOnly(h, r); }
    }
  }

  lemma SubFields(h: Heap, r: SubRecord)
    ensures var m, m' := h.instanceFields, ApplySub(h, r).instanceFields;
            m' == if r.ClassDump? && r.fields != [] then m[r.id := (if r.id in m then m[r.id] else []) + r.fields] else m
  {
    if r.ClassDump? {
      ClassStep(h, r);
      FieldsOnly(h, r.id, r.fields);
    } else if r.ObjectArrayDump? {
      ArrayStep(h, r);
    } else if r.Root? {
      RootOnly(h, r);
    } else {
      OtherOnly(h, r);
    }
  }

  lemma FieldsSnoc(h: Heap, rs: seq<SubRecord>, r: SubRecord, c: Id)
    requires FieldsListed(h.instanceFields, rs, c)
    ensures FieldsListed(ApplySub(h, r).instanceFields, rs + [r], c)
  {
    SubFields(h, r);
    assert (rs + [r])[..|rs|] == rs;
    assert AllFields(rs + [r], c) == AllFields(rs, c) + FieldList(r, c);
    assert AllFields(rs, c) == [] ==> AllFields(rs, c) + FieldList(r, c) == FieldList(r, c);
  }

  /** One sub-record more. */
  lemma ObjectTablesSnoc(h: Heap, rs: seq<SubRecord>, r: SubRecord)
    requires ObjectTables(h, rs)
    ensures ObjectTables(ApplySub(h, r), rs + [r])
  {
    var h' := ApplySub(h, r);
    SubStep(h, r);
    EachSnoc(rs, r, SuperEntry);
    LastSnoc(h.inheritance, Each(rs, SuperEntry), SuperEntry(r));
    EachSnoc(rs, r, TypeEntry);
    LastSnoc(h.instanceTypes, Each(rs, TypeEntry), TypeEntry(r));
    EachSnoc(rs, r, ClassEntry);
    LastSnoc(h.instanceClasses, Each(rs, ClassEntry), ClassEntry(r));
    EachSnoc(rs, r, DataEntry);
    FirstSnoc(h.fieldsData, Each(rs, DataEntry), DataEntry(r));
    EachSnoc(rs, r, ArrayEntry);
    FirstSnoc(h.primitiveArrays, Each(rs, ArrayEntry), ArrayEntry(r));
    forall c ensures FieldsListed(h'.instanceFields, rs + [r], c) {
      assert FieldsListed(h.instanceFields, rs, c);
      FieldsSnoc(h, rs, r, c);
    }
    SubEdges(h, r, AllEdges(rs));
    assert (rs + [r])[..|rs|] == rs;
  }

  lemma RootTablesSnoc(h: Heap, rs: seq<SubRecord>, r: SubRecord)
    requires RootTables(h, rs)
    ensures RootTables(ApplySub(h, r), rs + [r])
  {
    SubStep(h, r);
    assert (rs + [r])[..|rs|] == rs;
    EachSnoc(rs, r, RootEntry);
    LastSnoc(h.gcRootTypes, Each(rs, RootEntry), RootEntry(r));
    EachSnoc(rs, r, SerialEntry);
    LastSnoc(h.threadSerials, Each(rs, SerialEntry), SerialEntry(r));
    EachSnoc(rs, r, ThreadEntry);
    LastSnoc(h.threadObjects, Each(rs, ThreadEntry), ThreadEntry(r));
  }

  /** The tables say what the sub-records `rs` say. */
  ghost predicate Tables(h: Heap, rs: seq<SubRecord>) {
    ObjectTables(h, rs) && RootTables(h, rs)
  }

  lemma Shift<T>(s: seq<T>, t: seq<T>)
    ensures t == [] ==> s + t == s
    ensures t != [] ==> (s + [t[0]]) + t[1..] == s + t
  {}

  lemma {:induction false} SubsTables(h: Heap, rs: seq<SubRecord>, more: seq<SubRecord>)
    requires Tables(h, rs)
    ensures Tables(ApplySubs(h, more), rs + more) && Untouched(h, ApplySubs(h, more))
    decreases |more|
  {
    Shift(rs, more);
    if more != [] {
      ObjectTablesSnoc(h, rs, more[0]);
      RootTablesSnoc(h, rs, more[0]);
      SubStep(h, more[0]);
      SubsTables(ApplySub(h, more[0]), rs + [more[0]], more[1..]);
    }
  }

  // ----- the whole dump

  /** The sub-records of all heap-content records, in order. */
  function AllSubs(rs: seq<Record>): seq<SubRecord> {
    if rs == [] then []
    else AllSubs(rs[..|rs| - 1]) + if rs[|rs| - 1].HeapContent? then rs[|rs| - 1].subs else []
  }

  function StringEntry(r: Record): Option<(Id, seq<byte>)> {
    if r.StringRecord? then Some((r.id, r.text)) else None
  }

  function NameEntry(r: Record): Option<(Id, Id)> {
    if r.LoadClass? then Some((r.classId, r.nameId)) else None
  }

  function EachRecord<K, V>(rs: seq<Record>, f: Record -> Option<(K, V)>): (es: Entries<K, V>)
    ensures |es| == |rs| && forall i :: 0 <= i < |rs| ==> es[i] == f(rs[i])
  {
    seq(|rs|, i requires 0 <= i < |rs| => f(rs[i]))
  }

  lemma EachRecordSnoc<K, V>(rs: seq<Record>, r: Record, f: Record -> Option<(K, V)>)
    ensures EachRecord(rs + [r], f) == EachRecord(rs, f) + [f(r)]
  {}

  /** The heap of a dump, said of its records: the last text of a string and the last
      name of a class stay, and the other tables are those of all sub-records in order. */
  ghost predicate Says(h: Heap, idSize: nat, rs: seq<Record>) {
    && h.idSize == idSize && h.primitives == map[] && h.excluded == map[]
    && LastStays(h.strings, EachRecord(rs, StringEntry))
    && LastStays(h.classNames, EachRecord(rs, NameEntry))
    && Tables(h, AllSubs(rs))
  }

  lemma SaysSnoc(h: Heap, n: nat, rs: seq<Record>, r: Record)
    requires Says(h, n, rs)
    ensures Says(ApplyRecord(h, r), n, rs + [r])
  {
    assert (rs + [r])[..|rs|] == rs;
    EachRecordSnoc(rs, r, StringEntry);
    LastSnoc(h.strings, EachRecord(rs, StringEntry), StringEntry(r));
    EachRecordSnoc(rs, r, NameEntry);
    LastSnoc(h.classNames, EachRecord(rs, NameEntry), NameEntry(r));
    if r.HeapContent? {
      SubsTables(h, AllSubs(rs), r.subs);
    } else {
      assert AllSubs(rs + [r]) == AllSubs(rs);
      NamesOnly(h, ApplyRecord(h, r), AllSubs(rs));
    }
  }

  lemma NamesOnly(h: Heap, h': Heap, rs: seq<SubRecord>)
    requires h' == h.(strings := h'.strings, classNames := h'.classNames) && Tables(h, rs)
    ensures Tables(h', rs)
  {
    forall c ensures FieldsListed(h'.instanceFields, rs, c) { assert FieldsListed(h.instanceFields, rs, c); }
  }

  lemma {:induction false} RecordsSay(h: Heap, n: nat, rs: seq<Record>, more: seq<Record>)
    requires Says(h, n, rs)
    ensures Says(ApplyRecords(h, more), n, rs + more)
    decreases |more|
  {
    Shift(rs, more);
    if more != [] {
      SaysSnoc(h, n, rs, more[0]);
      RecordsSay(ApplyRecord(h, more[0]), n, rs + [more[0]], more[1..]);
    }
  }

  lemma EmptySays(n: nat)
    ensures Says(EMPTY_HEAP.(idSize := n), n, [])
  {
    NoEntries<Id, Id>();
    NoEntries<Id, ObjectType>();
    NoEntries<Id, FieldsData>();
    NoEntries<Id, ArrayData>();
    NoEntries<Id, RootType>();
    NoEntries<Id, int>();
    NoEntries<int, Id>();
    NoEntries<Id, seq<byte>>();
    var h := EMPTY_HEAP.(idSize := n);
    forall c ensures FieldsListed(h.instanceFields, [], c) {}
    forall a, b ensures EdgeAt(h.references, [], a, b) {}
  }

  /** Every table of the parsed heap, by what the records say. */
  lemma MeaningSays(d: Dump)
    ensures Says(Meaning(d), d.idSize, d.records)
  {
    EmptySays(d.idSize);
    RecordsSay(EMPTY_HEAP.(idSize := d.idSize), d.idSize, [], d.records);
    assert [] + d.records == d.records;
  }
}
