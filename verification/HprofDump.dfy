module HprofDump {
  // Abstract dumps, their encoding and the heap that they mean, and the proof that
  // parsing an encoding gives the meaning.
  //
  // Skipped parts of a record (stack traces, serial numbers, reserved words) are
  // kept in the abstract dump as raw bytes, so that nothing is assumed of them.

  import opened HprofHeap
  import opened HprofReader
  import opened HprofFormat

  datatype Constant = Constant(index: seq<byte>, typ: ValueType, value: seq<byte>)

  datatype Static = Static(name: Id, typ: ValueType, value: seq<byte>)

  datatype SubRecord =
    | Root(kind: RootType, id: Id, extra: seq<byte>)
    | ClassDump(id: Id, trace: seq<byte>, super: Id, skipped: seq<byte>,
                constants: seq<Constant>, statics: seq<Static>, fields: seq<Field>)
    | InstanceDump(id: Id, trace: seq<byte>, classId: Id, data: seq<byte>)
    | ObjectArrayDump(id: Id, trace: seq<byte>, classId: Id, elements: seq<Id>)
    | PrimitiveArrayDump(id: Id, trace: seq<byte>, typ: ValueType, length: nat, data: seq<byte>)
    | NoDataArray(id: Id, skipped: seq<byte>)
    | DumpInfo(skipped: seq<byte>)

  datatype Record =
    | StringRecord(time: seq<byte>, id: Id, text: seq<byte>)
    | LoadClass(time: seq<byte>, serial: seq<byte>, classId: Id, trace: seq<byte>, nameId: Id)
    | HeapContent(time: seq<byte>, segment: bool, subs: seq<SubRecord>)
    | OtherRecord(time: seq<byte>, tag: byte, body: seq<byte>)

  datatype Dump = Dump(version: seq<byte>, idSize: nat, time: seq<byte>, records: seq<Record>,
                       endTime: seq<byte>, endLength: seq<byte>, trailer: seq<byte>)

  // ----- well-formed dumps

  predicate GoodConstant(n: nat, c: Constant) {
    |c.index| == 2 && |c.value| == SizeIn(c.typ, n)
  }

  predicate GoodStatic(n: nat, s: Static) {
    Fits(n, s.name) && |s.value| == SizeIn(s.typ, n)
  }

  predicate GoodSub(n: nat, r: SubRecord) {
    match r
    case Root(t, x, extra) => Fits(n, x) && |extra| == RootExtra(t, n)
    case ClassDump(c, trace, super, skipped, constants, statics, fields) =>
      && Fits(n, c) && |trace| == 4 && Fits(n, super) && |skipped| == 5 * n + 4
      && |constants| < 0x1_0000 && |statics| < 0x1_0000 && |fields| < 0x1_0000
      && (forall i :: 0 <= i < |constants| ==> GoodConstant(n, constants[i]))
      && (forall i :: 0 <= i < |statics| ==> GoodStatic(n, statics[i]))
      && (forall i :: 0 <= i < |fields| ==> Fits(n, fields[i].name))
    case InstanceDump(x, trace, c, data) =>
      Fits(n, x) && |trace| == 4 && Fits(n, c) && |data| < 0x1_0000_0000
    case ObjectArrayDump(a, trace, c, elements) =>
      && Fits(n, a) && |trace| == 4 && Fits(n, c) && |elements| < 0x1_0000_0000
      && (forall i :: 0 <= i < |elements| ==> Fits(n, elements[i]))
    case PrimitiveArrayDump(a, trace, t, length, data) =>
      Fits(n, a) && |trace| == 4 && !t.Object? && length < 0x1_0000_0000 && |data| == length * TypeSize(t)
    case NoDataArray(a, skipped) => Fits(n, a) && |skipped| == 9
    case DumpInfo(skipped) => |skipped| == 4 + n
  }

  predicate GoodRecord(n: nat, r: Record) {
    && |r.time| == 4
    && |Body(n, r)| < 0x1_0000_0000
    && match r
       case StringRecord(_, id, text) => Fits(n, id)
       case LoadClass(_, serial, c, trace, name) => |serial| == 4 && Fits(n, c) && |trace| == 4 && Fits(n, name)
       case HeapContent(_, _, subs) => forall i :: 0 <= i < |subs| ==> GoodSub(n, subs[i])
       case OtherRecord(_, tag, _) => tag !in {STRINGS, LOAD_CLASS, HEAP_DUMP, HEAP_DUMP_SEGMENT, HEAP_DUMP_END}
  }

  predicate GoodDump(d: Dump) {
    && d.version in VERSIONS && 0 < d.idSize < 0x1_0000_0000 && |d.time| == 8
    && |d.endTime| == 4 && |d.endLength| == 4
    && forall i :: 0 <= i < |d.records| ==> GoodRecord(d.idSize, d.records[i])
  }

  // ----- encoding

  function EncodeConstants(cs: seq<Constant>): seq<byte> {
    if cs == [] then [] else (cs[0].index + ([TypeCode(cs[0].typ)] + cs[0].value)) + EncodeConstants(cs[1..])
  }

  function EncodeStatic(n: nat, s: Static): seq<byte> {
    BigEndian(n, s.name) + ([TypeCode(s.typ)] + s.value)
  }

  function EncodeStatics(n: nat, ss: seq<Static>): seq<byte> {
    if ss == [] then [] else EncodeStatic(n, ss[0]) + EncodeStatics(n, ss[1..])
  }

  function EncodeFields(n: nat, fs: seq<Field>): seq<byte> {
    if fs == [] then [] else (BigEndian(n, fs[0].name) + [TypeCode(fs[0].typ)]) + EncodeFields(n, fs[1..])
  }

  function EncodeIds(n: nat, xs: seq<Id>): seq<byte> {
    if xs == [] then [] else BigEndian(n, xs[0]) + EncodeIds(n, xs[1..])
  }

  function SubTag(r: SubRecord): byte {
    match r
    case Root(t, _, _) => RootTag(t)
    case ClassDump(_, _, _, _, _, _, _) => CLASS_DUMP
    case InstanceDump(_, _, _, _) => INSTANCE_DUMP
    case ObjectArrayDump(_, _, _, _) => OBJECT_ARRAY_DUMP
    case PrimitiveArrayDump(_, _, _, _, _) => PRIMITIVE_ARRAY_DUMP
    case NoDataArray(_, _) => PRIMITIVE_ARRAY_NO_DATA
    case DumpInfo(_) => DUMP_INFO
  }

  function ClassLists(n: nat, constants: seq<Constant>, statics: seq<Static>, fields: seq<Field>): seq<byte> {
    BigEndian(2, |constants|) + (EncodeConstants(constants)
      + (BigEndian(2, |statics|) + (EncodeStatics(n, statics)
      + (BigEndian(2, |fields|) + EncodeFields(n, fields)))))
  }

  function SubBody(n: nat, r: SubRecord): seq<byte> {
    match r
    case Root(_, x, extra) => BigEndian(n, x) + extra
    case ClassDump(c, trace, super, skipped, constants, statics, fields) =>
      BigEndian(n, c) + (trace + (BigEndian(n, super) + (skipped + ClassLists(n, constants, statics, fields))))
    case InstanceDump(x, trace, c, data) =>
      BigEndian(n, x) + (trace + (BigEndian(n, c) + (BigEndian(4, |data|) + data)))
    case ObjectArrayDump(a, trace, c, elements) =>
      BigEndian(n, a) + (trace + (BigEndian(4, |elements|) + (BigEndian(n, c) + EncodeIds(n, elements))))
    case PrimitiveArrayDump(a, trace, t, length, data) =>
      BigEndian(n, a) + (trace + (BigEndian(4, length) + ([TypeCode(t)] + data)))
    case NoDataArray(a, skipped) => BigEndian(n, a) + skipped
    case DumpInfo(skipped) => skipped
  }

  function EncodeSubs(n: nat, rs: seq<SubRecord>): seq<byte> {
    if rs == [] then [] else ([SubTag(rs[0])] + SubBody(n, rs[0])) + EncodeSubs(n, rs[1..])
  }

  function Tag(r: Record): byte {
    match r
    case StringRecord(_, _, _) => STRINGS
    case LoadClass(_, _, _, _, _) => LOAD_CLASS
    case HeapContent(_, segment, _) => if segment then HEAP_DUMP_SEGMENT else HEAP_DUMP
    case OtherRecord(_, tag, _) => tag
  }

  function Body(n: nat, r: Record): seq<byte> {
    match r
    case StringRecord(_, id, text) => BigEndian(n, id) + text
    case LoadClass(_, serial, c, trace, name) => serial + (BigEndian(n, c) + (trace + BigEndian(n, name)))
    case HeapContent(_, _, subs) => EncodeSubs(n, subs)
    case OtherRecord(_, _, body) => body
  }

  function EncodeRecord(n: nat, r: Record): seq<byte> {
    [Tag(r)] + (r.time + (BigEndian(4, |Body(n, r)|) + Body(n, r)))
  }

  function EncodeRecords(n: nat, rs: seq<Record>): seq<byte> {
    if rs == [] then [] else EncodeRecord(n, rs[0]) + EncodeRecords(n, rs[1..])
  }

  function Encode(d: Dump): seq<byte> {
    (d.version + [0]) + (BigEndian(4, d.idSize) + (d.time
      + (EncodeRecords(d.idSize, d.records) + ([HEAP_DUMP_END] + (d.endTime + (d.endLength + d.trailer))))))
  }

  // ----- meaning

  function ApplyStatics(h: Heap, c: Id, ss: seq<Static>): Heap
    decreases |ss|
  {
    if ss == [] then h else ApplyStatics(ApplyStatic(h, c, ss[0].name, ss[0].typ, ss[0].value), c, ss[1..])
  }

  function ApplyFields(h: Heap, c: Id, fs: seq<Field>): Heap
    decreases |fs|
  {
    if fs == [] then h else ApplyFields(AddField(h, c, fs[0]), c, fs[1..])
  }

  function ApplyElements(h: Heap, a: Id, i: nat, xs: seq<Id>): Heap
    decreases |xs|
  {
    if xs == [] then h else ApplyElements(AddReference(h, a, ElementRef(i), xs[0]), a, i + 1, xs[1..])
  }

  function ApplySub(h: Heap, r: SubRecord): Heap {
    match r
    case Root(t, x, extra) => ApplyRoot(h, t, x, Serial(extra))
    case ClassDump(c, _, super, _, _, statics, fields) =>
      ApplyFields(ApplyStatics(ClassHead(h, c, super), c, statics), c, fields)
    case InstanceDump(x, _, c, data) => ApplyInstance(h, x, c, data)
    case ObjectArrayDump(a, _, c, elements) => ApplyElements(ArrayHead(h, a, c), a, 0, elements)
    case PrimitiveArrayDump(a, _, t, _, data) => ApplyPrimitiveArray(h, a, ArrayData(t, data))
    case NoDataArray(a, _) => h.(instanceTypes := h.instanceTypes[a := PrimitiveArray])
    case DumpInfo(_) => h
  }

  function ApplySubs(h: Heap, rs: seq<SubRecord>): Heap
    decreases |rs|
  {
    if rs == [] then h else ApplySubs(ApplySub(h, rs[0]), rs[1..])
  }

  function ApplyRecord(h: Heap, r: Record): Heap {
    match r
    case StringRecord(_, id, text) => h.(strings := h.strings[id := text])
    case LoadClass(_, _, c, _, name) => h.(classNames := h.classNames[c := name])
    case HeapContent(_, _, subs) => ApplySubs(h, subs)
    case OtherRecord(_, _, _) => h
  }

  function ApplyRecords(h: Heap, rs: seq<Record>): Heap
    decreases |rs|
  {
    if rs == [] then h else ApplyRecords(ApplyRecord(h, rs[0]), rs[1..])
  }

  /** The heap that a dump stands for: its records applied in order. */
  function Meaning(d: Dump): Heap {
    ApplyRecords(EMPTY_HEAP.(idSize := d.idSize), d.records)
  }

  // ----- round trips

  lemma ByteBack(b: seq<byte>, pos: nat, c: byte)
    requires At(b, pos, [c])
    ensures ReadN(b, pos, 1) == Done(c as int, pos + 1)
  {
    assert b[pos + 0] == [c][0];
    assert Value(b, pos, 0) == 0;
  }

  lemma TypeBack(b: seq<byte>, pos: nat, t: ValueType)
    requires At(b, pos, [TypeCode(t)])
    ensures ReadType(b, pos) == Done(t, pos + 1)
  {
    ByteBack(b, pos, TypeCode(t));
  }

  // In the lemmas on lists, `count` and `end` name the length of the list and the
  // position after it.

  lemma ConstantBack(b: seq<byte>, pos: nat, n: nat, c: Constant, rest: seq<byte>, next: nat)
    requires GoodConstant(n, c) && At(b, pos, (c.index + ([TypeCode(c.typ)] + c.value)) + rest)
    requires next == pos + 3 + |c.value|
    ensures ParseConstant(b, pos, n) == Done((), next)
    ensures At(b, next, rest)
  {
    AtSplit(b, pos, c.index + ([TypeCode(c.typ)] + c.value), rest, next);
    AtSplit(b, pos, c.index, [TypeCode(c.typ)] + c.value, pos + 2);
    AtSplit(b, pos + 2, [TypeCode(c.typ)], c.value, pos + 2 + 1);
    TypeBack(b, pos + 2, c.typ);
  }

  lemma {:induction false} ConstantsBack(b: seq<byte>, pos: nat, cs: seq<Constant>, n: nat, count: nat, end: nat)
    requires forall i :: 0 <= i < |cs| ==> GoodConstant(n, cs[i])
    requires At(b, pos, EncodeConstants(cs)) && count == |cs| && end == pos + |EncodeConstants(cs)|
    ensures ParseConstants(b, pos, count, n) == Done((), end)
    decreases count
  {
    if count > 0 {
      var next := pos + 3 + |cs[0].value|;
      ConstantBack(b, pos, n, cs[0], EncodeConstants(cs[1..]), next);
      ConstantsBack(b, next, cs[1..], n, count - 1, end);
    }
  }

  lemma StaticBack(b: seq<byte>, pos: nat, c: Id, h: Heap, s: Static, rest: seq<byte>, next: nat)
    requires GoodStatic(h.idSize, s) && At(b, pos, EncodeStatic(h.idSize, s) + rest)
    requires next == pos + |EncodeStatic(h.idSize, s)|
    ensures ParseStatic(b, pos, c, h) == Done(ApplyStatic(h, c, s.name, s.typ, s.value), next)
    ensures At(b, next, rest)
  {
    var n := h.idSize;
    AtSplit(b, pos, EncodeStatic(n, s), rest, next);
    AtSplit(b, pos, BigEndian(n, s.name), [TypeCode(s.typ)] + s.value, pos + n);
    AtSplit(b, pos + n, [TypeCode(s.typ)], s.value, pos + n + 1);
    ReadBack(b, pos, n, s.name);
    TypeBack(b, pos + n, s.typ);
    TakeBack(b, pos + n + 1, s.value);
  }

  lemma {:induction false} StaticsBack(b: seq<byte>, pos: nat, ss: seq<Static>, c: Id, h: Heap, n: nat,
                                       count: nat, end: nat)
    requires n == h.idSize && forall i :: 0 <= i < |ss| ==> GoodStatic(n, ss[i])
    requires At(b, pos, EncodeStatics(n, ss)) && count == |ss| && end == pos + |EncodeStatics(n, ss)|
    ensures ParseStatics(b, pos, count, c, h) == Done(ApplyStatics(h, c, ss), end)
    decreases count
  {
    if count > 0 {
      var s, next := ss[0], pos + |EncodeStatic(n, ss[0])|;
      var h1 := ApplyStatic(h, c, s.name, s.typ, s.value);
      StaticBack(b, pos, c, h, s, EncodeStatics(n, ss[1..]), next);
      StaticsBack(b, next, ss[1..], c, h1, n, count - 1, end);
    }
  }

  lemma FieldBack(b: seq<byte>, pos: nat, n: nat, f: Field, rest: seq<byte>, next: nat)
    requires Fits(n, f.name) && At(b, pos, (BigEndian(n, f.name) + [TypeCode(f.typ)]) + rest)
    requires next == pos + n + 1
    ensures ParseField(b, pos, n) == Done(f, next)
    ensures At(b, next, rest)
  {
    AtSplit(b, pos, BigEndian(n, f.name) + [TypeCode(f.typ)], rest, next);
    AtSplit(b, pos, BigEndian(n, f.name), [TypeCode(f.typ)], pos + n);
    ReadBack(b, pos, n, f.name);
    TypeBack(b, pos + n, f.typ);
  }

  lemma {:induction false} FieldsBack(b: seq<byte>, pos: nat, fs: seq<Field>, c: Id, h: Heap, n: nat,
                                      count: nat, end: nat)
    requires n == h.idSize && forall i :: 0 <= i < |fs| ==> Fits(n, fs[i].name)
    requires At(b, pos, EncodeFields(n, fs)) && count == |fs| && end == pos + |EncodeFields(n, fs)|
    ensures ParseFields(b, pos, count, c, h) == Done(ApplyFields(h, c, fs), end)
    decreases count
  {
    if count > 0 {
      var next := pos + n + 1;
      FieldBack(b, pos, n, fs[0], EncodeFields(n, fs[1..]), next);
      FieldsBack(b, next, fs[1..], c, AddField(h, c, fs[0]), n, count - 1, end);
    }
  }

  lemma ElementBack(b: seq<byte>, pos: nat, n: nat, x: Id, rest: seq<byte>, next: nat)
    requires Fits(n, x) && At(b, pos, BigEndian(n, x) + rest) && next == pos + n
    ensures ReadN(b, pos, n) == Done(x, next) && At(b, next, rest)
  {
    AtSplit(b, pos, BigEndian(n, x), rest, next);
    ReadBack(b, pos, n, x);
  }

  lemma {:induction false} ElementsBack(b: seq<byte>, pos: nat, xs: seq<Id>, a: Id, i: nat, h: Heap, n: nat,
                                        count: nat, end: nat)
    requires n == h.idSize && forall i :: 0 <= i < |xs| ==> Fits(n, xs[i])
    requires At(b, pos, EncodeIds(n, xs)) && count == |xs| && end == pos + |EncodeIds(n, xs)|
    ensures ParseElements(b, pos, count, i, a, h) == Done(ApplyElements(h, a, i, xs), end)
    decreases count
  {
    if count > 0 {
      var next := pos + n;
      ElementBack(b, pos, n, xs[0], EncodeIds(n, xs[1..]), next);
      ElementsBack(b, next, xs[1..], a, i + 1, AddReference(h, a, ElementRef(i), xs[0]), n, count - 1, end);
    }
  }

  lemma RootBack(b: seq<byte>, pos: nat, h: Heap, n: nat, r: SubRecord, end: nat)
    requires n == h.idSize && end == pos + |SubBody(n, r)|
    requires r.Root? && GoodSub(n, r) && At(b, pos, SubBody(n, r))
    ensures ParseRoot(b, pos, r.kind, h) == Done(ApplySub(h, r), end)
    ensures RootOf(SubTag(r)) == Some(r.kind)
  {
    AtSplit(b, pos, BigEndian(n, r.id), r.extra, pos + n);
    ReadBack(b, pos, n, r.id);
    TakeBack(b, pos + n, r.extra);
  }

  lemma InstanceReads(b: seq<byte>, pos: nat, n: nat, r: SubRecord)
    requires r.InstanceDump? && GoodSub(n, r) && At(b, pos, SubBody(n, r))
    ensures ReadN(b, pos, n) == Done(r.id, pos + n)
    ensures ReadN(b, pos + n + 4, n) == Done(r.classId, pos + n + 4 + n)
    ensures ReadN(b, pos + n + 4 + n, 4) == Done(|r.data|, pos + n + 4 + n + 4)
    ensures Take(b, pos + n + 4 + n + 4, |r.data|) == Done(r.data, pos + n + 4 + n + 4 + |r.data|)
  {
    var e3 := BigEndian(4, |r.data|) + r.data;
    var e2 := BigEndian(n, r.classId) + e3;
    var p1, p2, p3, p4 := pos + n, pos + n + 4, pos + n + 4 + n, pos + n + 4 + n + 4;
    AtSplit(b, pos, BigEndian(n, r.id), r.trace + e2, p1);
    AtSplit(b, p1, r.trace, e2, p2);
    AtSplit(b, p2, BigEndian(n, r.classId), e3, p3);
    AtSplit(b, p3, BigEndian(4, |r.data|), r.data, p4);
    PowersOf256();
    ReadBack(b, pos, n, r.id);
    ReadBack(b, p2, n, r.classId);
    ReadBack(b, p3, 4, |r.data|);
    TakeBack(b, p4, r.data);
  }

  lemma InstanceBack(b: seq<byte>, pos: nat, h: Heap, n: nat, r: SubRecord, end: nat)
    requires n == h.idSize && end == pos + |SubBody(n, r)|
    requires r.InstanceDump? && GoodSub(n, r) && At(b, pos, SubBody(n, r))
    ensures ParseInstance(b, pos, h) == Done(ApplySub(h, r), end)
  {
    InstanceReads(b, pos, n, r);
  }

  lemma ObjectArrayReads(b: seq<byte>, pos: nat, n: nat, r: SubRecord)
    requires r.ObjectArrayDump? && GoodSub(n, r) && At(b, pos, SubBody(n, r))
    ensures ReadN(b, pos, n) == Done(r.id, pos + n)
    ensures ReadN(b, pos + n + 4, 4) == Done(|r.elements|, pos + n + 4 + 4)
    ensures ReadN(b, pos + n + 4 + 4, n) == Done(r.classId, pos + n + 4 + 4 + n)
    ensures At(b, pos + n + 4 + 4 + n, EncodeIds(n, r.elements))
  {
    var ids := EncodeIds(n, r.elements);
    var e3 := BigEndian(n, r.classId) + ids;
    var e2 := BigEndian(4, |r.elements|) + e3;
    var p1, p2, p3, p4 := pos + n, pos + n + 4, pos + n + 4 + 4, pos + n + 4 + 4 + n;
    AtSplit(b, pos, BigEndian(n, r.id), r.trace + e2, p1);
    AtSplit(b, p1, r.trace, e2, p2);
    AtSplit(b, p2, BigEndian(4, |r.elements|), e3, p3);
    AtSplit(b, p3, BigEndian(n, r.classId), ids, p4);
    PowersOf256();
    ReadBack(b, pos, n, r.id);
    ReadBack(b, p2, 4, |r.elements|);
    ReadBack(b, p3, n, r.classId);
  }

  lemma ObjectArrayUnfold(b: seq<byte>, pos: nat, h: Heap, a: Id, count: nat, c: Id, next: nat)
    requires pos <= |b| && next == pos + h.idSize + 4 + 4 + h.idSize
    requires ReadN(b, pos, h.idSize) == Done(a, pos + h.idSize)
    requires ReadN(b, pos + h.idSize + 4, 4) == Done(count, pos + h.idSize + 4 + 4)
    requires ReadN(b, pos + h.idSize + 4 + 4, h.idSize) == Done(c, pos + h.idSize + 4 + 4 + h.idSize)
    ensures ParseObjectArray(b, pos, h)
         == ParseElements(b, next, count, 0, a, ArrayHead(h, a, c))
  {}

  lemma ObjectArrayShape(n: nat, h: Heap, r: SubRecord)
    requires r.ObjectArrayDump? && |r.trace| == 4
    ensures |SubBody(n, r)| == n + 4 + 4 + n + |EncodeIds(n, r.elements)|
    ensures ApplySub(h, r) == ApplyElements(ArrayHead(h, r.id, r.classId), r.id, 0, r.elements)
  {}

  lemma ObjectArrayBack(b: seq<byte>, pos: nat, h: Heap, n: nat, r: SubRecord, end: nat)
    requires n == h.idSize && end == pos + |SubBody(n, r)|
    requires r.ObjectArrayDump? && GoodSub(n, r) && At(b, pos, SubBody(n, r))
    ensures ParseObjectArray(b, pos, h) == Done(ApplySub(h, r), end)
  {
    var next := pos + n + 4 + 4 + n;
    ObjectArrayShape(n, h, r);
    ObjectArrayReads(b, pos, n, r);
    ElementsBack(b, next, r.elements, r.id, 0, ArrayHead(h, r.id, r.classId), n, |r.elements|, end);
    ObjectArrayUnfold(b, pos, h, r.id, |r.elements|, r.classId, next);
  }

  lemma ClassReads(b: seq<byte>, pos: nat, n: nat, r: SubRecord)
    requires r.ClassDump? && GoodSub(n, r) && At(b, pos, SubBody(n, r))
    ensures ParseClassIds(b, pos, n) == Done(ClassIds(r.id, r.super), pos + n + 4 + n + (5 * n + 4))
    ensures At(b, pos + n + 4 + n + (5 * n + 4), ClassLists(n, r.constants, r.statics, r.fields))
  {
    var lists := ClassLists(n, r.constants, r.statics, r.fields);
    var e3 := r.skipped + lists;
    var e2 := BigEndian(n, r.super) + e3;
    var p1, p2, p3, p4 := pos + n, pos + n + 4, pos + n + 4 + n, pos + n + 4 + n + (5 * n + 4);
    AtSplit(b, pos, BigEndian(n, r.id), r.trace + e2, p1);
    AtSplit(b, p1, r.trace, e2, p2);
    AtSplit(b, p2, BigEndian(n, r.super), e3, p3);
    AtSplit(b, p3, r.skipped, lists, p4);
    ReadBack(b, pos, n, r.id);
    ReadBack(b, p2, n, r.super);
  }

  /** Where the pieces of the three lists of a class stand. */
  lemma ClassListsAt(b: seq<byte>, pos: nat, n: nat, cs: seq<Constant>, ss: seq<Static>, fs: seq<Field>,
                     p2: nat, p4: nat)
    requires At(b, pos, ClassLists(n, cs, ss, fs))
    requires p2 == pos + 2 + |EncodeConstants(cs)| && p4 == p2 + 2 + |EncodeStatics(n, ss)|
    ensures At(b, pos, BigEndian(2, |cs|)) && At(b, pos + 2, EncodeConstants(cs))
    ensures At(b, p2, BigEndian(2, |ss|)) && At(b, p2 + 2, EncodeStatics(n, ss))
    ensures At(b, p4, BigEndian(2, |fs|)) && At(b, p4 + 2, EncodeFields(n, fs))
  {
    var e3 := BigEndian(2, |fs|) + EncodeFields(n, fs);
    var e2 := BigEndian(2, |ss|) + (EncodeStatics(n, ss) + e3);
    CountedAt(b, pos, |cs|, EncodeConstants(cs), e2, p2);
    CountedAt(b, p2, |ss|, EncodeStatics(n, ss), e3, p4);
    AtSplit(b, p4, BigEndian(2, |fs|), EncodeFields(n, fs), p4 + 2);
  }

  /** A count of two bytes, a list and the rest. */
  lemma CountedAt(b: seq<byte>, pos: nat, k: nat, list: seq<byte>, rest: seq<byte>, next: nat)
    requires At(b, pos, BigEndian(2, k) + (list + rest)) && next == pos + 2 + |list|
    ensures At(b, pos, BigEndian(2, k)) && At(b, pos + 2, list) && At(b, next, rest)
  {
    AtSplit(b, pos, BigEndian(2, k), list + rest, pos + 2);
    AtSplit(b, pos + 2, list, rest, next);
  }

  lemma CountBack(b: seq<byte>, pos: nat, v: nat)
    requires v < 0x1_0000 && At(b, pos, BigEndian(2, v))
    ensures ReadN(b, pos, 2) == Done(v, pos + 2)
  {
    PowersOf256();
    ReadBack(b, pos, 2, v);
  }

  ghost predicate ListsAre(b: seq<byte>, pos: nat, c: Id, h: Heap, n: nat, h1: Heap, k1: nat, k2: nat, k3: nat,
                           p1: nat, p2: nat, p3: nat, p4: nat, p5: nat)
  {
    && pos <= |b| && p1 <= |b| && p2 <= |b| && p3 <= |b| && p4 <= |b| && p5 <= |b|
    && n == h.idSize == h1.idSize
    && ReadN(b, pos, 2) == Done(k1, p1) && ParseConstants(b, p1, k1, n) == Done((), p2)
    && ReadN(b, p2, 2) == Done(k2, p3) && ParseStatics(b, p3, k2, c, h) == Done(h1, p4)
    && ReadN(b, p4, 2) == Done(k3, p5)
  }

  lemma ClassListsUnfold(b: seq<byte>, pos: nat, c: Id, h: Heap, n: nat, h1: Heap, k1: nat, k2: nat, k3: nat,
                         p1: nat, p2: nat, p3: nat, p4: nat, p5: nat)
    ensures ListsAre(b, pos, c, h, n, h1, k1, k2, k3, p1, p2, p3, p4, p5) ==>
              ParseClassLists(b, pos, c, h) == ParseFields(b, p5, k3, c, h1)
  {}

  lemma {:induction false} ApplyStaticsIdSize(h: Heap, c: Id, ss: seq<Static>)
    ensures ApplyStatics(h, c, ss).idSize == h.idSize
    decreases |ss|
  {
    if ss != [] { ApplyStaticsIdSize(ApplyStatic(h, c, ss[0].name, ss[0].typ, ss[0].value), c, ss[1..]); }
  }

  lemma ClassListsSize(n: nat, cs: seq<Constant>, ss: seq<Static>, fs: seq<Field>)
    ensures |ClassLists(n, cs, ss, fs)|
         == 2 + |EncodeConstants(cs)| + 2 + |EncodeStatics(n, ss)| + 2 + |EncodeFields(n, fs)|
  {}

  lemma ClassListsCounts(b: seq<byte>, pos: nat, n: nat, cs: seq<Constant>, ss: seq<Static>, fs: seq<Field>,
                         p2: nat, p4: nat)
    requires |cs| < 0x1_0000 && |ss| < 0x1_0000 && |fs| < 0x1_0000
    requires At(b, pos, ClassLists(n, cs, ss, fs))
    requires p2 == pos + 2 + |EncodeConstants(cs)| && p4 == p2 + 2 + |EncodeStatics(n, ss)|
    ensures ReadN(b, pos, 2) == Done(|cs|, pos + 2)
    ensures ReadN(b, p2, 2) == Done(|ss|, p2 + 2)
    ensures ReadN(b, p4, 2) == Done(|fs|, p4 + 2)
  {
    ClassListsAt(b, pos, n, cs, ss, fs, p2, p4);
    CountBack(b, pos, |cs|);
    CountBack(b, p2, |ss|);
    CountBack(b, p4, |fs|);
  }

  lemma ClassListsBack(b: seq<byte>, pos: nat, c: Id, h: Heap, n: nat,
                       cs: seq<Constant>, ss: seq<Static>, fs: seq<Field>,
                       p1: nat, p2: nat, p3: nat, p4: nat, p5: nat, end: nat)
    requires pos <= |b| && n == h.idSize
    requires forall i :: 0 <= i < |cs| ==> GoodConstant(n, cs[i])
    requires forall i :: 0 <= i < |ss| ==> GoodStatic(n, ss[i])
    requires forall i :: 0 <= i < |fs| ==> Fits(n, fs[i].name)
    requires p1 == pos + 2 && p3 == p2 + 2 && p5 == p4 + 2
    requires p2 == p1 + |EncodeConstants(cs)| && p4 == p3 + |EncodeStatics(n, ss)| && end == p5 + |EncodeFields(n, fs)|
    requires ReadN(b, pos, 2) == Done(|cs|, p1) && At(b, p1, EncodeConstants(cs))
    requires ReadN(b, p2, 2) == Done(|ss|, p3) && At(b, p3, EncodeStatics(n, ss))
    requires ReadN(b, p4, 2) == Done(|fs|, p5) && At(b, p5, EncodeFields(n, fs))
    ensures ParseClassLists(b, pos, c, h) == Done(ApplyFields(ApplyStatics(h, c, ss), c, fs), end)
  {
    ConstantsBack(b, p1, cs, n, |cs|, p2);
    StaticsBack(b, p3, ss, c, h, n, |ss|, p4);
    ApplyStaticsIdSize(h, c, ss);
    FieldsBack(b, p5, fs, c, ApplyStatics(h, c, ss), n, |fs|, end);
    ClassListsUnfold(b, pos, c, h, n, ApplyStatics(h, c, ss), |cs|, |ss|, |fs|, p1, p2, p3, p4, p5);
  }

  lemma ClassListsWhole(b: seq<byte>, pos: nat, c: Id, h: Heap, n: nat,
                        cs: seq<Constant>, ss: seq<Static>, fs: seq<Field>, end: nat)
    requires |cs| < 0x1_0000 && |ss| < 0x1_0000 && |fs| < 0x1_0000
    requires forall i :: 0 <= i < |cs| ==> GoodConstant(n, cs[i])
    requires forall i :: 0 <= i < |ss| ==> GoodStatic(n, ss[i])
    requires forall i :: 0 <= i < |fs| ==> Fits(n, fs[i].name)
    requires n == h.idSize && At(b, pos, ClassLists(n, cs, ss, fs)) && end == pos + |ClassLists(n, cs, ss, fs)|
    ensures ParseClassLists(b, pos, c, h) == Done(ApplyFields(ApplyStatics(h, c, ss), c, fs), end)
  {
    var p2 := pos + 2 + |EncodeConstants(cs)|;
    var p4 := p2 + 2 + |EncodeStatics(n, ss)|;
    ClassListsSize(n, cs, ss, fs);
    ClassListsAt(b, pos, n, cs, ss, fs, p2, p4);
    ClassListsCounts(b, pos, n, cs, ss, fs, p2, p4);
    ClassListsBack(b, pos, c, h, n, cs, ss, fs, pos + 2, p2, p2 + 2, p4, p4 + 2, end);
  }

  lemma ClassShape(n: nat, h: Heap, r: SubRecord)
    requires r.ClassDump? && |r.trace| == 4 && |r.skipped| == 5 * n + 4
    ensures |SubBody(n, r)| == n + 4 + n + (5 * n + 4) + |ClassLists(n, r.constants, r.statics, r.fields)|
    ensures ApplySub(h, r)
         == ApplyFields(ApplyStatics(ClassHead(h, r.id, r.super), r.id, r.statics), r.id, r.fields)
  {}

  lemma ClassUnfold(b: seq<byte>, pos: nat, h: Heap, n: nat, c: Id, super: Id, next: nat)
    requires pos <= |b| && next <= |b| && n == h.idSize
    requires ParseClassIds(b, pos, n) == Done(ClassIds(c, super), next)
    ensures ParseClass(b, pos, h) == ParseClassLists(b, next, c, ClassHead(h, c, super))
  {}

  lemma ClassBack(b: seq<byte>, pos: nat, h: Heap, n: nat, r: SubRecord, end: nat)
    requires n == h.idSize && end == pos + |SubBody(n, r)|
    requires r.ClassDump? && GoodSub(n, r) && At(b, pos, SubBody(n, r))
    ensures ParseClass(b, pos, h) == Done(ApplySub(h, r), end)
  {
    var next := pos + n + 4 + n + (5 * n + 4);
    ClassShape(n, h, r);
    ClassReads(b, pos, n, r);
    ClassUnfold(b, pos, h, n, r.id, r.super, next);
    ClassListsOf(b, next, h, n, r, end);
  }

  lemma ClassListsOf(b: seq<byte>, next: nat, h: Heap, n: nat, r: SubRecord, end: nat)
    requires n == h.idSize && r.ClassDump? && GoodSub(n, r)
    requires At(b, next, ClassLists(n, r.constants, r.statics, r.fields))
    requires end == next + |ClassLists(n, r.constants, r.statics, r.fields)|
    ensures ParseClassLists(b, next, r.id, ClassHead(h, r.id, r.super))
         == Done(ApplyFields(ApplyStatics(ClassHead(h, r.id, r.super), r.id, r.statics), r.id, r.fields), end)
  {
    ClassListsWhole(b, next, r.id, ClassHead(h, r.id, r.super), n, r.constants, r.statics, r.fields, end);
  }

  lemma PrimitiveArrayBack(b: seq<byte>, pos: nat, h: Heap, n: nat, r: SubRecord, end: nat)
    requires n == h.idSize && end == pos + |SubBody(n, r)|
    requires r.PrimitiveArrayDump? && GoodSub(n, r) && At(b, pos, SubBody(n, r))
    ensures ParsePrimitiveArray(b, pos, h) == Done(ApplySub(h, r), end)
  {
    var e3 := [TypeCode(r.typ)] + r.data;
    var e2 := BigEndian(4, r.length) + e3;
    var p1, p2, p3, p4 := pos + n, pos + n + 4, pos + n + 4 + 4, pos + n + 4 + 4 + 1;
    AtSplit(b, pos, BigEndian(n, r.id), r.trace + e2, p1);
    AtSplit(b, p1, r.trace, e2, p2);
    AtSplit(b, p2, BigEndian(4, r.length), e3, p3);
    AtSplit(b, p3, [TypeCode(r.typ)], r.data, p4);
    PowersOf256();
    ReadBack(b, pos, n, r.id);
    ReadBack(b, p2, 4, r.length);
    TypeBack(b, p3, r.typ);
    TakeBack(b, p4, r.data);
  }

  lemma NoDataArrayBack(b: seq<byte>, pos: nat, h: Heap, n: nat, r: SubRecord, end: nat)
    requires n == h.idSize && end == pos + |SubBody(n, r)|
    requires r.NoDataArray? && GoodSub(n, r) && At(b, pos, SubBody(n, r))
    ensures ParseNoDataArray(b, pos, h) == Done(ApplySub(h, r), end)
  {
    AtSplit(b, pos, BigEndian(n, r.id), r.skipped, pos + n);
    ReadBack(b, pos, n, r.id);
  }

  // The dispatch on the tag, one kind at a time.

  lemma DispatchClass(b: seq<byte>, pos: nat, h: Heap)
    requires pos <= |b|
    ensures ParseSub(b, pos, CLASS_DUMP, h) == ParseClass(b, pos, h)
  {}

  lemma DispatchInstance(b: seq<byte>, pos: nat, h: Heap)
    requires pos <= |b|
    ensures ParseSub(b, pos, INSTANCE_DUMP, h) == ParseInstance(b, pos, h)
  {}

  lemma DispatchObjectArray(b: seq<byte>, pos: nat, h: Heap)
    requires pos <= |b|
    ensures ParseSub(b, pos, OBJECT_ARRAY_DUMP, h) == ParseObjectArray(b, pos, h)
  {}

  lemma DispatchPrimitiveArray(b: seq<byte>, pos: nat, h: Heap)
    requires pos <= |b|
    ensures ParseSub(b, pos, PRIMITIVE_ARRAY_DUMP, h) == ParsePrimitiveArray(b, pos, h)
  {}

  lemma DispatchNoDataArray(b: seq<byte>, pos: nat, h: Heap)
    requires pos <= |b|
    ensures ParseSub(b, pos, PRIMITIVE_ARRAY_NO_DATA, h) == ParseNoDataArray(b, pos, h)
  {}

  lemma DispatchRoot(b: seq<byte>, pos: nat, h: Heap, t: RootType)
    requires pos <= |b|
    ensures ParseSub(b, pos, RootTag(t), h) == ParseRoot(b, pos, t, h)
  {
    assert RootOf(RootTag(t)) == Some(t);
  }

  /** Every kind of sub-record is parsed to its meaning, and the parser stops right
      after it. */
  lemma SubBack(b: seq<byte>, pos: nat, h: Heap, n: nat, r: SubRecord, end: nat)
    requires n == h.idSize && end == pos + |SubBody(n, r)|
    requires GoodSub(n, r) && At(b, pos, SubBody(n, r))
    ensures ParseSub(b, pos, SubTag(r), h) == Done(ApplySub(h, r), end)
  {
    match r {
      case Root(t, _, _) => DispatchRoot(b, pos, h, t); RootBack(b, pos, h, n, r, end);
      case ClassDump(_, _, _, _, _, _, _) => DispatchClass(b, pos, h); ClassBack(b, pos, h, n, r, end);
      case InstanceDump(_, _, _, _) => DispatchInstance(b, pos, h); InstanceBack(b, pos, h, n, r, end);
      case ObjectArrayDump(_, _, _, _) => DispatchObjectArray(b, pos, h); ObjectArrayBack(b, pos, h, n, r, end);
      case PrimitiveArrayDump(_, _, _, _, _) => DispatchPrimitiveArray(b, pos, h); PrimitiveArrayBack(b, pos, h, n, r, end);
      case NoDataArray(_, _) => DispatchNoDataArray(b, pos, h); NoDataArrayBack(b, pos, h, n, r, end);
      case DumpInfo(_) =>
    }
  }

  lemma {:induction false} ApplyFieldsIdSize(h: Heap, c: Id, fs: seq<Field>)
    ensures ApplyFields(h, c, fs).idSize == h.idSize
    decreases |fs|
  {
    if fs != [] { ApplyFieldsIdSize(AddField(h, c, fs[0]), c, fs[1..]); }
  }

  lemma {:induction false} ApplyElementsIdSize(h: Heap, a: Id, i: nat, xs: seq<Id>)
    ensures ApplyElements(h, a, i, xs).idSize == h.idSize
    decreases |xs|
  {
    if xs != [] { ApplyElementsIdSize(AddReference(h, a, ElementRef(i), xs[0]), a, i + 1, xs[1..]); }
  }

  lemma ApplySubIdSize(h: Heap, r: SubRecord)
    ensures ApplySub(h, r).idSize == h.idSize
  {
    match r
    case ClassDump(c, _, super, _, _, statics, fields) =>
      ApplyStaticsIdSize(ClassHead(h, c, super), c, statics);
      ApplyFieldsIdSize(ApplyStatics(ClassHead(h, c, super), c, statics), c, fields);
    case ObjectArrayDump(a, _, c, elements) => ApplyElementsIdSize(ArrayHead(h, a, c), a, 0, elements);
    case _ =>
  }

  /** One tagged sub-record in front of the rest of a heap-dump record. */
  lemma TaggedSubBack(b: seq<byte>, pos: nat, h: Heap, n: nat, r: SubRecord, rest: seq<byte>, next: nat)
    requires n == h.idSize && GoodSub(n, r) && At(b, pos, ([SubTag(r)] + SubBody(n, r)) + rest)
    requires next == pos + 1 + |SubBody(n, r)|
    ensures ReadN(b, pos, 1) == Done(SubTag(r) as int, pos + 1)
    ensures ParseSub(b, pos + 1, SubTag(r), h) == Done(ApplySub(h, r), next)
    ensures At(b, next, rest)
  {
    AtSplit(b, pos, [SubTag(r)] + SubBody(n, r), rest, next);
    AtSplit(b, pos, [SubTag(r)], SubBody(n, r), pos + 1);
    ByteBack(b, pos, SubTag(r));
    SubBack(b, pos + 1, h, n, r, next);
  }

  ghost predicate SubIs(b: seq<byte>, pos: nat, stop: nat, h: Heap, tag: int, p1: nat, h1: Heap, next: nat) {
    && pos <= |b| && pos < stop && p1 <= |b| && next <= |b|
    && ReadN(b, pos, 1) == Done(tag, p1) && ParseSub(b, p1, tag, h) == Done(h1, next)
  }

  lemma ContentUnfold(b: seq<byte>, pos: nat, stop: nat, h: Heap, tag: int, p1: nat, h1: Heap, next: nat)
    ensures SubIs(b, pos, stop, h, tag, p1, h1, next) ==>
              ParseContent(b, pos, stop, h) == ParseContent(b, next, stop, h1)
  {}

  lemma {:induction false} SubsBack(b: seq<byte>, pos: nat, h: Heap, n: nat, rs: seq<SubRecord>, end: nat)
    requires n == h.idSize && forall i :: 0 <= i < |rs| ==> GoodSub(n, rs[i])
    requires At(b, pos, EncodeSubs(n, rs)) && end == pos + |EncodeSubs(n, rs)|
    ensures ParseContent(b, pos, end, h) == Done(ApplySubs(h, rs), end)
    decreases |rs|
  {
    if rs != [] {
      var r, rest, next := rs[0], rs[1..], pos + 1 + |SubBody(n, rs[0])|;
      TaggedSubBack(b, pos, h, n, r, EncodeSubs(n, rest), next);
      ApplySubIdSize(h, r);
      ContentUnfold(b, pos, end, h, SubTag(r), pos + 1, ApplySub(h, r), next);
      SubsBack(b, next, ApplySub(h, r), n, rest, end);
    }
  }

  // ----- records

  lemma StringBack(b: seq<byte>, pos: nat, h: Heap, n: nat, r: Record, len: nat, end: nat)
    requires n == h.idSize && len == |Body(n, r)| && end == pos + len
    requires r.StringRecord? && GoodRecord(n, r) && At(b, pos, Body(n, r))
    ensures ParseRecord(b, pos, STRINGS, len, h) == Done(ApplyRecord(h, r), end)
  {
    AtSplit(b, pos, BigEndian(n, r.id), r.text, pos + n);
    ReadBack(b, pos, n, r.id);
    TakeBack(b, pos + n, r.text);
  }

  lemma LoadClassBack(b: seq<byte>, pos: nat, h: Heap, n: nat, r: Record, len: nat, end: nat)
    requires n == h.idSize && len == |Body(n, r)| && end == pos + len
    requires r.LoadClass? && GoodRecord(n, r) && At(b, pos, Body(n, r))
    ensures ParseRecord(b, pos, LOAD_CLASS, len, h) == Done(ApplyRecord(h, r), end)
  {
    var e3 := r.trace + BigEndian(n, r.nameId);
    var p1, p2, p3 := pos + 4, pos + 4 + n, pos + 4 + n + 4;
    AtSplit(b, pos, r.serial, BigEndian(n, r.classId) + e3, p1);
    AtSplit(b, p1, BigEndian(n, r.classId), e3, p2);
    AtSplit(b, p2, r.trace, BigEndian(n, r.nameId), p3);
    ReadBack(b, p1, n, r.classId);
    ReadBack(b, p3, n, r.nameId);
  }

  lemma DispatchContent(b: seq<byte>, pos: nat, tag: int, h: Heap, len: nat, end: nat)
    requires pos <= |b| && end == pos + len && (tag == HEAP_DUMP || tag == HEAP_DUMP_SEGMENT)
    ensures ParseRecord(b, pos, tag, len, h) == ParseContent(b, pos, end, h)
  {}

  lemma RecordBack(b: seq<byte>, pos: nat, h: Heap, n: nat, r: Record, len: nat, end: nat)
    requires n == h.idSize && len == |Body(n, r)| && end == pos + len
    requires GoodRecord(n, r) && At(b, pos, Body(n, r))
    ensures ParseRecord(b, pos, Tag(r), len, h) == Done(ApplyRecord(h, r), end)
  {
    match r
    case StringRecord(_, _, _) => StringBack(b, pos, h, n, r, len, end);
    case LoadClass(_, _, _, _, _) => LoadClassBack(b, pos, h, n, r, len, end);
    case HeapContent(_, _, subs) => DispatchContent(b, pos, Tag(r), h, len, end); SubsBack(b, pos, h, n, subs, end);
    case OtherRecord(_, _, _) =>
  }

  lemma {:induction false} ApplySubsIdSize(h: Heap, rs: seq<SubRecord>)
    ensures ApplySubs(h, rs).idSize == h.idSize
    decreases |rs|
  {
    if rs != [] {
      ApplySubIdSize(h, rs[0]);
      ApplySubsIdSize(ApplySub(h, rs[0]), rs[1..]);
    }
  }

  /** Tag, time stamp and length of a record, then its body. */
  lemma RecordReads(b: seq<byte>, pos: nat, n: nat, r: Record, rest: seq<byte>, p1: nat, p2: nat, p3: nat, next: nat)
    requires GoodRecord(n, r) && At(b, pos, EncodeRecord(n, r) + rest)
    requires p1 == pos + 1 && p2 == p1 + 4 && p3 == p2 + 4 && next == p3 + |Body(n, r)|
    ensures ReadN(b, pos, 1) == Done(Tag(r) as int, p1)
    ensures Take(b, p1, 4) == Done(r.time, p2)
    ensures ReadN(b, p2, 4) == Done(|Body(n, r)|, p3)
    ensures At(b, p3, Body(n, r)) && At(b, next, rest)
  {
    var e3 := BigEndian(4, |Body(n, r)|) + Body(n, r);
    AtSplit(b, pos, EncodeRecord(n, r), rest, next);
    AtSplit(b, pos, [Tag(r)], r.time + e3, p1);
    AtSplit(b, p1, r.time, e3, p2);
    AtSplit(b, p2, BigEndian(4, |Body(n, r)|), Body(n, r), p3);
    ByteBack(b, pos, Tag(r));
    TakeBack(b, p1, r.time);
    PowersOf256();
    ReadBack(b, p2, 4, |Body(n, r)|);
  }

  lemma RecordsUnfold(b: seq<byte>, pos: nat, h: Heap, tag: int, time: seq<byte>, len: nat, h1: Heap,
                      p1: nat, p2: nat, p3: nat, next: nat)
    requires pos <= |b| && p1 <= |b| && p2 <= |b| && p3 <= |b| && next <= |b| && tag != HEAP_DUMP_END
    requires ReadN(b, pos, 1) == Done(tag, p1) && Take(b, p1, 4) == Done(time, p2) && ReadN(b, p2, 4) == Done(len, p3)
    requires ParseRecord(b, p3, tag, len, h) == Done(h1, next)
    ensures ParseRecords(b, pos, h) == ParseRecords(b, next, h1)
  {}

  /** The end record and what follows it. */
  function Ending(d: Dump): seq<byte> {
    [HEAP_DUMP_END] + (d.endTime + (d.endLength + d.trailer))
  }

  lemma EndBack(b: seq<byte>, pos: nat, h: Heap, d: Dump)
    requires |d.endTime| == 4 && |d.endLength| == 4 && At(b, pos, Ending(d))
    ensures ParseRecords(b, pos, h) == Done(h, pos + 9)
  {
    AtSplit(b, pos, [HEAP_DUMP_END], d.endTime + (d.endLength + d.trailer), pos + 1);
    ByteBack(b, pos, HEAP_DUMP_END);
  }

  lemma ApplyRecordIdSize(h: Heap, r: Record)
    ensures ApplyRecord(h, r).idSize == h.idSize
  {
    if r.HeapContent? { ApplySubsIdSize(h, r.subs); }
  }

  /** One record in front of anything. */
  lemma RecordStep(b: seq<byte>, pos: nat, h: Heap, n: nat, r: Record, rest: seq<byte>, next: nat)
    requires n == h.idSize && GoodRecord(n, r) && At(b, pos, EncodeRecord(n, r) + rest)
    requires next == pos + |EncodeRecord(n, r)|
    ensures At(b, next, rest) && ParseRecords(b, pos, h) == ParseRecords(b, next, ApplyRecord(h, r))
  {
    var len := |Body(n, r)|;
    var p1, p2, p3 := pos + 1, pos + 1 + 4, pos + 1 + 4 + 4;
    RecordReads(b, pos, n, r, rest, p1, p2, p3, next);
    RecordBack(b, p3, h, n, r, len, next);
    RecordsUnfold(b, pos, h, Tag(r), r.time, len, ApplyRecord(h, r), p1, p2, p3, next);
  }

  lemma Assoc(a: seq<byte>, b: seq<byte>, c: seq<byte>)
    ensures (a + b) + c == a + (b + c)
  {}

  lemma {:induction false} RecordsBack(b: seq<byte>, pos: nat, h: Heap, n: nat, rs: seq<Record>, d: Dump, last: nat)
    requires n == h.idSize && forall i :: 0 <= i < |rs| ==> GoodRecord(n, rs[i])
    requires |d.endTime| == 4 && |d.endLength| == 4
    requires At(b, pos, EncodeRecords(n, rs) + Ending(d)) && last == pos + |EncodeRecords(n, rs)|
    ensures ParseRecords(b, pos, h) == Done(ApplyRecords(h, rs), last + 9)
    decreases |rs|
  {
    if rs == [] {
      assert EncodeRecords(n, rs) + Ending(d) == Ending(d);
      EndBack(b, pos, h, d);
    } else {
      var r, tail := rs[0], EncodeRecords(n, rs[1..]) + Ending(d);
      var next := pos + |EncodeRecord(n, r)|;
      Assoc(EncodeRecord(n, r), EncodeRecords(n, rs[1..]), Ending(d));
      RecordStep(b, pos, h, n, r, tail, next);
      ApplyRecordIdSize(h, r);
      RecordsBack(b, next, ApplyRecord(h, r), n, rs[1..], d, last);
    }
  }

  // ----- the whole file

  lemma {:induction false} CStringBack(b: seq<byte>, pos: nat, v: seq<byte>, rest: seq<byte>, next: nat)
    requires 0 !in v && At(b, pos, (v + [0]) + rest) && next == pos + |v| + 1
    ensures CString(b, pos) == Done(v, next) && At(b, next, rest)
    decreases |v|
  {
    AtSplit(b, pos, v + [0], rest, next);
    if v == [] {
      assert b[pos + 0] == (v + [0])[0];
    } else {
      assert b[pos + 0] == (v + [0])[0] == v[0];
      assert (v + [0]) + rest == [v[0]] + ((v[1..] + [0]) + rest);
      AtSplit(b, pos, [v[0]], (v[1..] + [0]) + rest, pos + 1);
      CStringBack(b, pos + 1, v[1..], rest, next);
      assert [v[0]] + v[1..] == v;
    }
  }

  lemma VersionsHaveNoZero(v: seq<byte>)
    requires v in VERSIONS
    ensures 0 !in v
  {}

  lemma HeaderReads(b: seq<byte>, d: Dump, tail: seq<byte>, p1: nat, p2: nat, p3: nat)
    requires d.version in VERSIONS && d.idSize < 0x1_0000_0000 && |d.time| == 8
    requires At(b, 0, (d.version + [0]) + (BigEndian(4, d.idSize) + (d.time + tail)))
    requires p1 == |d.version| + 1 && p2 == p1 + 4 && p3 == p2 + 8
    ensures CString(b, 0) == Done(d.version, p1)
    ensures ReadN(b, p1, 4) == Done(d.idSize, p2)
    ensures Take(b, p2, 8) == Done(d.time, p3)
    ensures At(b, p3, tail)
  {
    VersionsHaveNoZero(d.version);
    CStringBack(b, 0, d.version, BigEndian(4, d.idSize) + (d.time + tail), p1);
    AtSplit(b, p1, BigEndian(4, d.idSize), d.time + tail, p2);
    AtSplit(b, p2, d.time, tail, p3);
    PowersOf256();
    ReadBack(b, p1, 4, d.idSize);
    TakeBack(b, p2, d.time);
  }

  ghost predicate HeaderIs(b: seq<byte>, version: seq<byte>, n: nat, time: seq<byte>, p1: nat, p2: nat, p3: nat) {
    && CString(b, 0) == Done(version, p1) && version in VERSIONS
    && ReadN(b, p1, 4) == Done(n, p2) && n > 0
    && Take(b, p2, 8) == Done(time, p3) && p3 <= |b|
  }

  lemma FileUnfold(b: seq<byte>, version: seq<byte>, n: nat, time: seq<byte>, p1: nat, p2: nat, p3: nat)
    ensures HeaderIs(b, version, n, time, p1, p2, p3) ==>
              ParseFile(b) == ParseRecords(b, p3, EMPTY_HEAP.(idSize := n))
  {}

  /** Round trip: parsing the encoding of a well-formed dump builds exactly the heap
      that its records, applied in order, stand for; what follows the end record is
      not looked at. */
  lemma ParseOfEncode(d: Dump)
    requires GoodDump(d)
    ensures ParseFile(Encode(d)).Done? && ParseFile(Encode(d)).value == Meaning(d)
  {
    var b, n := Encode(d), d.idSize;
    var tail := EncodeRecords(n, d.records) + Ending(d);
    var p1, p2, p3 := |d.version| + 1, |d.version| + 1 + 4, |d.version| + 1 + 4 + 8;
    assert At(b, 0, (d.version + [0]) + (BigEndian(4, n) + (d.time + tail)));
    HeaderReads(b, d, tail, p1, p2, p3);
    FileUnfold(b, d.version, n, d.time, p1, p2, p3);
    RecordsBack(b, p3, EMPTY_HEAP.(idSize := n), n, d.records, d, p3 + |EncodeRecords(n, d.records)|);
  }
}
