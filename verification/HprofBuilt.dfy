/** What holds of every heap that the parser builds. */
module HprofBuilt {
  import opened HprofHeap
  import opened HprofReader
  import opened HprofFormat
  import opened HprofDump

  /** A referrer other than a class with a static field has a class record. */
  ghost predicate ReferrersHaveClasses(h: Heap) {
    forall a, b :: Edge(h.references, a, b) && !h.references[a][b].kind.StaticField? ==> a in h.instanceClasses
  }

  ghost predicate RootsHaveTypes(h: Heap) {
    && (forall r :: r in h.gcRoots ==> r in h.gcRootTypes)
    && (forall r :: r in h.gcRootTypes && h.gcRootTypes[r].JavaFrame? ==> r in h.threadSerials)
  }

  /** Fields belong to a class that was dumped, field data to an object with a class,
      every object with a class has a type, and nothing is excluded yet. */
  ghost predicate WellBuilt(h: Heap) {
    ObjectsBuilt(h) && RootsHaveTypes(h)
  }

  ghost predicate ObjectsBuilt(h: Heap) {
    && h.instanceFields.Keys <= h.inheritance.Keys
    && h.fieldsData.Keys <= h.instanceClasses.Keys
    && h.instanceClasses.Keys <= h.instanceTypes.Keys
    && h.excluded == map[] && h.primitives == map[]
    && ReferrersHaveClasses(h)
  }

  lemma AddReferenceBuilt(h: Heap, a: Id, r: Reference, b: Id)
    requires WellBuilt(h) && (r.kind.StaticField? || a in h.instanceClasses)
    ensures WellBuilt(AddReference(h, a, r, b))
  {}

  lemma {:induction false} StaticsBuilt(h: Heap, c: Id, ss: seq<Static>)
    requires WellBuilt(h)
    ensures WellBuilt(ApplyStatics(h, c, ss))
    ensures ApplyStatics(h, c, ss).inheritance == h.inheritance
    decreases |ss|
  {
    if ss != [] {
      if ss[0].typ.Object? { AddReferenceBuilt(h, c, FieldRef(true, ss[0].name), Value(ss[0].value, 0, |ss[0].value|)); }
      StaticsBuilt(ApplyStatic(h, c, ss[0].name, ss[0].typ, ss[0].value), c, ss[1..]);
    }
  }

  lemma {:induction false} FieldsBuilt(h: Heap, c: Id, fs: seq<Field>)
    requires WellBuilt(h) && c in h.inheritance
    ensures WellBuilt(ApplyFields(h, c, fs))
    decreases |fs|
  {
    if fs != [] { FieldsBuilt(AddField(h, c, fs[0]), c, fs[1..]); }
  }

  lemma {:induction false} ElementsBuilt(h: Heap, a: Id, i: nat, xs: seq<Id>)
    requires WellBuilt(h) && a in h.instanceClasses
    ensures WellBuilt(ApplyElements(h, a, i, xs))
    decreases |xs|
  {
    if xs != [] {
      AddReferenceBuilt(h, a, ElementRef(i), xs[0]);
      ElementsBuilt(AddReference(h, a, ElementRef(i), xs[0]), a, i + 1, xs[1..]);
    }
  }

  lemma RootBuilt(h: Heap, t: RootType, x: Id, serial: int)
    requires WellBuilt(h)
    ensures WellBuilt(ApplyRoot(h, t, x, serial))
  {
    RootTyped(h, t, x, serial);
    RootObjects(h, t, x, serial);
  }

  lemma RootObjects(h: Heap, t: RootType, x: Id, serial: int)
    requires ObjectsBuilt(h)
    ensures ObjectsBuilt(ApplyRoot(h, t, x, serial))
  {}

  lemma RootTyped(h: Heap, t: RootType, x: Id, serial: int)
    requires RootsHaveTypes(h)
    ensures RootsHaveTypes(ApplyRoot(h, t, x, serial))
  {
    var h' := ApplyRoot(h, t, x, serial);
    assert forall r :: r in h'.gcRoots ==> r in h.gcRoots || r == x;
  }

  lemma ClassHeadBuilt(h: Heap, c: Id, super: Id)
    requires WellBuilt(h)
    ensures WellBuilt(ClassHead(h, c, super)) && c in ClassHead(h, c, super).inheritance
  {}

  lemma InstanceBuilt(h: Heap, x: Id, c: Id, data: seq<byte>)
    requires WellBuilt(h)
    ensures WellBuilt(ApplyInstance(h, x, c, data))
  {}

  lemma ArrayHeadBuilt(h: Heap, a: Id, c: Id)
    requires WellBuilt(h)
    ensures WellBuilt(ArrayHead(h, a, c)) && a in ArrayHead(h, a, c).instanceClasses
  {}

  lemma PrimitiveArrayBuilt(h: Heap, a: Id, arrays: map<Id, ArrayData>)
    requires WellBuilt(h)
    ensures WellBuilt(h.(instanceTypes := h.instanceTypes[a := PrimitiveArray], primitiveArrays := arrays))
  {}

  lemma ClassBuilt(h: Heap, c: Id, super: Id, statics: seq<Static>, fields: seq<Field>)
    requires WellBuilt(h)
    ensures WellBuilt(ApplyFields(ApplyStatics(ClassHead(h, c, super), c, statics), c, fields))
  {
    ClassHeadBuilt(h, c, super);
    StaticsBuilt(ClassHead(h, c, super), c, statics);
    FieldsBuilt(ApplyStatics(ClassHead(h, c, super), c, statics), c, fields);
  }

  lemma ObjectArrayBuilt(h: Heap, a: Id, c: Id, elements: seq<Id>)
    requires WellBuilt(h)
    ensures WellBuilt(ApplyElements(ArrayHead(h, a, c), a, 0, elements))
  {
    ArrayHeadBuilt(h, a, c);
    ElementsBuilt(ArrayHead(h, a, c), a, 0, elements);
  }

  lemma SubBuilt(h: Heap, r: SubRecord)
    requires WellBuilt(h)
    ensures WellBuilt(ApplySub(h, r))
  {
    match r
    case Root(t, x, extra) => RootBuilt(h, t, x, Serial(extra));
    case ClassDump(c, _, super, _, _, statics, fields) => ClassBuilt(h, c, super, statics, fields);
    case InstanceDump(x, _, c, data) => InstanceBuilt(h, x, c, data);
    case ObjectArrayDump(a, _, c, elements) => ObjectArrayBuilt(h, a, c, elements);
    case PrimitiveArrayDump(a, _, t, _, data) =>
      PrimitiveArrayBuilt(h, a, Emplace(h.primitiveArrays, a, ArrayData(t, data)));
    case NoDataArray(a, _) => PrimitiveArrayBuilt(h, a, h.primitiveArrays);
    case DumpInfo(_) =>
  }

  lemma {:induction false} SubsBuilt(h: Heap, rs: seq<SubRecord>)
    requires WellBuilt(h)
    ensures WellBuilt(ApplySubs(h, rs))
    decreases |rs|
  {
    if rs != [] {
      SubBuilt(h, rs[0]);
      SubsBuilt(ApplySub(h, rs[0]), rs[1..]);
    }
  }

  lemma RecordBuilt(h: Heap, r: Record)
    requires WellBuilt(h)
    ensures WellBuilt(ApplyRecord(h, r))
  {
    match r
    case StringRecord(_, id, text) => NamesBuilt(h, h.strings[id := text], h.classNames);
    case LoadClass(_, _, c, _, name) => NamesBuilt(h, h.strings, h.classNames[c := name]);
    case HeapContent(_, _, subs) => SubsBuilt(h, subs);
    case OtherRecord(_, _, _) =>
  }

  lemma NamesBuilt(h: Heap, strings: map<Id, seq<byte>>, names: map<Id, Id>)
    requires WellBuilt(h)
    ensures WellBuilt(h.(strings := strings, classNames := names))
  {}

  lemma {:induction false} RecordsBuilt(h: Heap, rs: seq<Record>)
    requires WellBuilt(h)
    ensures WellBuilt(ApplyRecords(h, rs))
    decreases |rs|
  {
    if rs != [] {
      RecordBuilt(h, rs[0]);
      RecordsBuilt(ApplyRecord(h, rs[0]), rs[1..]);
    }
  }

  lemma MeaningIsBuilt(d: Dump)
    ensures WellBuilt(Meaning(d))
  {
    RecordsBuilt(EMPTY_HEAP.(idSize := d.idSize), d.records);
  }
}
