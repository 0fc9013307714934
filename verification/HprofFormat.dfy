/** The HPROF binary dump format: what the parser engine does on any bytes. */
module HprofFormat {
  import opened HprofHeap
  import opened HprofReader

  // ----- meaning of the single records: the Add/Mark methods of the heap

  function MarkRoot(h: Heap, x: Id, t: RootType): Heap {
    h.(gcRoots := h.gcRoots + [x], gcRootTypes := h.gcRootTypes[x := t])
  }

  function AddReference(h: Heap, a: Id, r: Reference, b: Id): Heap {
    h.(references := AddEdge(h.references, a, r, b))
  }

  function AddField(h: Heap, c: Id, f: Field): Heap {
    var known := if c in h.instanceFields then h.instanceFields[c] else [];
    h.(instanceFields := h.instanceFields[c := known + [f]])
  }

  /** `std::map::emplace`: the first entry for a key stays. */
  function Emplace<V>(m: map<Id, V>, k: Id, v: V): map<Id, V> {
    if k in m then m else m[k := v]
  }

  // ----- value types and root tags

  function TypeCode(t: ValueType): (c: byte) {
    match t
    case Object => 2
    case Boolean => 4
    case Char => 5
    case Float => 6
    case Double => 7
    case Byte => 8
    case Short => 9
    case Int => 10
    case Long => 11
  }

  /** `value_type_cast`: any other code is fatal. */
  function TypeOf(c: int): Option<ValueType> {
    if c == 2 then Some(Object) else if c == 4 then Some(Boolean) else if c == 5 then Some(Char)
    else if c == 6 then Some(Float) else if c == 7 then Some(Double) else if c == 8 then Some(Byte)
    else if c == 9 then Some(Short) else if c == 10 then Some(Int) else if c == 11 then Some(Long)
    else None
  }

  function SizeIn(t: ValueType, idSize: nat): nat {
    if t.Object? then idSize else TypeSize(t)
  }

  function RootTag(t: RootType): (c: byte) {
    match t
    case Unknown => 0xff
    case JniGlobal => 0x01
    case JniLocal => 0x02
    case JavaFrame => 0x03
    case NativeStack => 0x04
    case StickyClass => 0x05
    case ThreadBlock => 0x06
    case MonitorUsed => 0x07
    case ThreadObject => 0x08
    case InternedString => 0x89
    case Finalizing => 0x8a
    case Debugger => 0x8b
    case ReferenceCleanup => 0x8c
    case VMInternal => 0x8d
    case JniMonitor => 0x8e
    case Unreachable => 0x90
  }

  function RootOf(c: int): Option<RootType> {
    if c == 0xff then Some(Unknown) else if c == 0x01 then Some(JniGlobal) else if c == 0x02 then Some(JniLocal)
    else if c == 0x03 then Some(JavaFrame) else if c == 0x04 then Some(NativeStack)
    else if c == 0x05 then Some(StickyClass) else if c == 0x06 then Some(ThreadBlock)
    else if c == 0x07 then Some(MonitorUsed) else if c == 0x08 then Some(ThreadObject)
    else if c == 0x89 then Some(InternedString) else if c == 0x8a then Some(Finalizing)
    else if c == 0x8b then Some(Debugger) else if c == 0x8c then Some(ReferenceCleanup)
    else if c == 0x8d then Some(VMInternal) else if c == 0x8e then Some(JniMonitor)
    else if c == 0x90 then Some(Unreachable) else None
  }

  /** Bytes that follow the object id in a root sub-record. */
  function RootExtra(t: RootType, idSize: nat): nat {
    match t
    case JniGlobal => idSize
    case JniLocal => 8
    case JavaFrame => 8
    case NativeStack => 4
    case ThreadBlock => 4
    case ThreadObject => 8
    case JniMonitor => 8
    case _ => 0
  }

  const CLASS_DUMP: byte := 0x20
  const INSTANCE_DUMP: byte := 0x21
  const OBJECT_ARRAY_DUMP: byte := 0x22
  const PRIMITIVE_ARRAY_DUMP: byte := 0x23
  const PRIMITIVE_ARRAY_NO_DATA: byte := 0xc3
  const DUMP_INFO: byte := 0xfe

  const STRINGS: byte := 0x01
  const LOAD_CLASS: byte := 0x02
  const HEAP_DUMP: byte := 0x0c
  const HEAP_DUMP_SEGMENT: byte := 0x1c
  const HEAP_DUMP_END: byte := 0x2c

  /** The thread serial number that follows the id in two kinds of root. */
  function Serial(extra: seq<byte>): int {
    if |extra| >= 4 then Value(extra, 0, 4) else 0
  }

  /** A root sub-record: the null id marks nothing; two kinds also record the thread. */
  function ApplyRoot(h: Heap, t: RootType, x: Id, serial: int): (h': Heap)
    ensures h'.idSize == h.idSize
  {
    if x == 0 then h
    else
      var h1 := MarkRoot(h, x, t);
      if t.JavaFrame? then h1.(threadSerials := h1.threadSerials[x := serial])
      else if t.ThreadObject? then h1.(threadObjects := h1.threadObjects[serial := x])
      else h1
  }

  // ----- the parser, on any bytes

  function ReadType(b: seq<byte>, pos: nat): (r: Parsed<ValueType>)
    requires pos <= |b|
    ensures r.Done? ==> pos <= r.pos <= |b|
  {
    match ReadN(b, pos, 1) case Fatal => Fatal case Done(c, p) =>
    match TypeOf(c)
    case None => Fatal
    case Some(t) => Done(t, p)
  }

  function ParseConstant(b: seq<byte>, pos: nat, idSize: nat): (r: Parsed<()>)
    requires pos <= |b|
    ensures r.Done? ==> pos <= r.pos <= |b|
  {
    match Take(b, pos, 2) case Fatal => Fatal case Done(_, p1) =>
    match ReadType(b, p1) case Fatal => Fatal case Done(t, p2) =>
    match Take(b, p2, SizeIn(t, idSize)) case Fatal => Fatal case Done(_, p3) =>
    Done((), p3)
  }

  function ParseConstants(b: seq<byte>, pos: nat, count: nat, idSize: nat): (r: Parsed<()>)
    requires pos <= |b|
    ensures r.Done? ==> pos <= r.pos <= |b|
    decreases count
  {
    if count == 0 then Done((), pos) else
    match ParseConstant(b, pos, idSize) case Fatal => Fatal case Done(_, p1) =>
    ParseConstants(b, p1, count - 1, idSize)
  }

  /** A static field: only an object value leaves a reference. */
  function ApplyStatic(h: Heap, c: Id, name: Id, t: ValueType, v: seq<byte>): (h': Heap)
    ensures h'.idSize == h.idSize
  {
    if t.Object? then AddReference(h, c, FieldRef(true, name), Value(v, 0, |v|)) else h
  }

  function ParseStatic(b: seq<byte>, pos: nat, c: Id, h: Heap): (r: Parsed<Heap>)
    requires pos <= |b|
    ensures r.Done? ==> pos <= r.pos <= |b| && r.value.idSize == h.idSize
  {
    match ReadN(b, pos, h.idSize) case Fatal => Fatal case Done(name, p1) =>
    match ReadType(b, p1) case Fatal => Fatal case Done(t, p2) =>
    match Take(b, p2, SizeIn(t, h.idSize)) case Fatal => Fatal case Done(v, p3) =>
    Done(ApplyStatic(h, c, name, t, v), p3)
  }

  function ParseStatics(b: seq<byte>, pos: nat, count: nat, c: Id, h: Heap): (r: Parsed<Heap>)
    requires pos <= |b|
    ensures r.Done? ==> pos <= r.pos <= |b| && r.value.idSize == h.idSize
    decreases count
  {
    if count == 0 then Done(h, pos) else
    match ParseStatic(b, pos, c, h) case Fatal => Fatal case Done(h1, p1) =>
    ParseStatics(b, p1, count - 1, c, h1)
  }

  function ParseField(b: seq<byte>, pos: nat, idSize: nat): (r: Parsed<Field>)
    requires pos <= |b|
    ensures r.Done? ==> pos <= r.pos <= |b|
  {
    match ReadN(b, pos, idSize) case Fatal => Fatal case Done(name, p1) =>
    match ReadType(b, p1) case Fatal => Fatal case Done(t, p2) =>
    Done(Field(name, t), p2)
  }

  function ParseFields(b: seq<byte>, pos: nat, count: nat, c: Id, h: Heap): (r: Parsed<Heap>)
    requires pos <= |b|
    ensures r.Done? ==> pos <= r.pos <= |b| && r.value.idSize == h.idSize
    decreases count
  {
    if count == 0 then Done(h, pos) else
    match ParseField(b, pos, h.idSize) case Fatal => Fatal case Done(f, p1) =>
    ParseFields(b, p1, count - 1, c, AddField(h, c, f))
  }

  function ParseElements(b: seq<byte>, pos: nat, count: nat, i: nat, a: Id, h: Heap): (r: Parsed<Heap>)
    requires pos <= |b|
    ensures r.Done? ==> pos <= r.pos <= |b| && r.value.idSize == h.idSize
    decreases count
  {
    if count == 0 then Done(h, pos) else
    match ReadN(b, pos, h.idSize) case Fatal => Fatal case Done(x, p1) =>
    ParseElements(b, p1, count - 1, i + 1, a, AddReference(h, a, ElementRef(i), x))
  }

  function ParseRoot(b: seq<byte>, pos: nat, t: RootType, h: Heap): (r: Parsed<Heap>)
    requires pos <= |b|
    ensures r.Done? ==> pos <= r.pos <= |b| && r.value.idSize == h.idSize
  {
    match ReadN(b, pos, h.idSize) case Fatal => Fatal case Done(x, p1) =>
    match Take(b, p1, RootExtra(t, h.idSize)) case Fatal => Fatal case Done(extra, p2) =>
    Done(ApplyRoot(h, t, x, Serial(extra)), p2)
  }

  datatype ClassIds = ClassIds(id: Id, super: Id)

  /** Everything in a class dump before its three lists. */
  function ParseClassIds(b: seq<byte>, pos: nat, n: nat): (r: Parsed<ClassIds>)
    requires pos <= |b|
    ensures r.Done? ==> pos <= r.pos <= |b|
  {
    match ReadN(b, pos, n) case Fatal => Fatal case Done(c, p1) =>
    match Take(b, p1, 4) case Fatal => Fatal case Done(_, p2) =>
    match ReadN(b, p2, n) case Fatal => Fatal case Done(super, p3) =>
    match Take(b, p3, 5 * n + 4) case Fatal => Fatal case Done(_, p4) =>
    Done(ClassIds(c, super), p4)
  }

  function ParseClass(b: seq<byte>, pos: nat, h: Heap): (r: Parsed<Heap>)
    requires pos <= |b|
    ensures r.Done? ==> pos <= r.pos <= |b| && r.value.idSize == h.idSize
  {
    match ParseClassIds(b, pos, h.idSize) case Fatal => Fatal case Done(ids, p1) =>
    ParseClassLists(b, p1, ids.id, ClassHead(h, ids.id, ids.super))
  }

  function ClassHead(h: Heap, c: Id, super: Id): Heap {
    h.(instanceTypes := h.instanceTypes[c := Class], inheritance := h.inheritance[c := super])
  }

  /** The constant pool, the static fields and the instance fields of a class. */
  function ParseClassLists(b: seq<byte>, pos: nat, c: Id, h: Heap): (r: Parsed<Heap>)
    requires pos <= |b|
    ensures r.Done? ==> pos <= r.pos <= |b| && r.value.idSize == h.idSize
  {
    match ReadN(b, pos, 2) case Fatal => Fatal case Done(constants, p1) =>
    match ParseConstants(b, p1, Count(constants), h.idSize) case Fatal => Fatal case Done(_, p2) =>
    match ReadN(b, p2, 2) case Fatal => Fatal case Done(statics, p3) =>
    match ParseStatics(b, p3, Count(statics), c, h) case Fatal => Fatal case Done(h1, p4) =>
    match ReadN(b, p4, 2) case Fatal => Fatal case Done(fields, p5) =>
    ParseFields(b, p5, Count(fields), c, h1)
  }

  /** A value just read is never negative. */
  function Count(v: int): nat {
    if v < 0 then 0 else v
  }

  function ParseInstance(b: seq<byte>, pos: nat, h: Heap): (r: Parsed<Heap>)
    requires pos <= |b|
    ensures r.Done? ==> pos <= r.pos <= |b| && r.value.idSize == h.idSize
  {
    var n := h.idSize;
    match ReadN(b, pos, n) case Fatal => Fatal case Done(x, p1) =>
    match Take(b, p1, 4) case Fatal => Fatal case Done(_, p2) =>
    match ReadN(b, p2, n) case Fatal => Fatal case Done(c, p3) =>
    match ReadN(b, p3, 4) case Fatal => Fatal case Done(size, p4) =>
    match Take(b, p4, Count(size)) case Fatal => Fatal case Done(data, p5) =>
    Done(ApplyInstance(h, x, c, data), p5)
  }

  function ApplyInstance(h: Heap, x: Id, c: Id, data: seq<byte>): Heap {
    h.(instanceTypes := h.instanceTypes[x := Instance],
       instanceClasses := h.instanceClasses[x := c],
       fieldsData := Emplace(h.fieldsData, x, FieldsData(c, data)))
  }

  function ParseObjectArray(b: seq<byte>, pos: nat, h: Heap): (r: Parsed<Heap>)
    requires pos <= |b|
    ensures r.Done? ==> pos <= r.pos <= |b| && r.value.idSize == h.idSize
  {
    var n := h.idSize;
    match ReadN(b, pos, n) case Fatal => Fatal case Done(a, p1) =>
    match Take(b, p1, 4) case Fatal => Fatal case Done(_, p2) =>
    match ReadN(b, p2, 4) case Fatal => Fatal case Done(length, p3) =>
    match ReadN(b, p3, n) case Fatal => Fatal case Done(c, p4) =>
    ParseElements(b, p4, Count(length), 0, a, ArrayHead(h, a, c))
  }

  function ArrayHead(h: Heap, a: Id, c: Id): Heap {
    h.(instanceTypes := h.instanceTypes[a := ObjectArray], instanceClasses := h.instanceClasses[a := c])
  }

  function ParsePrimitiveArray(b: seq<byte>, pos: nat, h: Heap): (r: Parsed<Heap>)
    requires pos <= |b|
    ensures r.Done? ==> pos <= r.pos <= |b| && r.value.idSize == h.idSize
  {
    match ReadN(b, pos, h.idSize) case Fatal => Fatal case Done(a, p1) =>
    match Take(b, p1, 4) case Fatal => Fatal case Done(_, p2) =>
    match ReadN(b, p2, 4) case Fatal => Fatal case Done(length, p3) =>
    match ReadType(b, p3) case Fatal => Fatal case Done(t, p4) =>
    if t.Object? then Fatal else
    match Take(b, p4, Count(length * TypeSize(t))) case Fatal => Fatal case Done(data, p5) =>
    Done(ApplyPrimitiveArray(h, a, ArrayData(t, data)), p5)
  }

  function ApplyPrimitiveArray(h: Heap, a: Id, d: ArrayData): Heap {
    h.(instanceTypes := h.instanceTypes[a := PrimitiveArray],
       primitiveArrays := Emplace(h.primitiveArrays, a, d))
  }

  function ParseNoDataArray(b: seq<byte>, pos: nat, h: Heap): (r: Parsed<Heap>)
    requires pos <= |b|
    ensures r.Done? ==> pos <= r.pos <= |b| && r.value.idSize == h.idSize
  {
    match ReadN(b, pos, h.idSize) case Fatal => Fatal case Done(a, p1) =>
    match Take(b, p1, 9) case Fatal => Fatal case Done(_, p2) =>
    Done(h.(instanceTypes := h.instanceTypes[a := PrimitiveArray]), p2)
  }

  /** One sub-record after its tag. */
  function ParseSub(b: seq<byte>, pos: nat, tag: int, h: Heap): (r: Parsed<Heap>)
    requires pos <= |b|
    ensures r.Done? ==> pos <= r.pos <= |b| && r.value.idSize == h.idSize
  {
    if RootOf(tag).Some? then ParseRoot(b, pos, RootOf(tag).value, h)
    else if tag == CLASS_DUMP then ParseClass(b, pos, h)
    else if tag == INSTANCE_DUMP then ParseInstance(b, pos, h)
    else if tag == OBJECT_ARRAY_DUMP then ParseObjectArray(b, pos, h)
    else if tag == PRIMITIVE_ARRAY_DUMP then ParsePrimitiveArray(b, pos, h)
    else if tag == PRIMITIVE_ARRAY_NO_DATA then ParseNoDataArray(b, pos, h)
    else if tag == DUMP_INFO then
      match Take(b, pos, 4 + h.idSize) case Fatal => Fatal case Done(_, p) =>
      Done(h, p)
    else Fatal
  }

  /** The sub-records of one heap-dump record, up to position `stop`. */
  function ParseContent(b: seq<byte>, pos: nat, stop: nat, h: Heap): (r: Parsed<Heap>)
    requires pos <= |b|
    ensures r.Done? ==> pos <= r.pos <= |b| && r.value.idSize == h.idSize
    decreases |b| - pos
  {
    if pos >= stop then Done(h, pos) else
    match ReadN(b, pos, 1) case Fatal => Fatal case Done(tag, p1) =>
    match ParseSub(b, p1, tag, h) case Fatal => Fatal case Done(h1, p2) =>
    ParseContent(b, p2, stop, h1)
  }

  /** A tag and the sub-record it announces. */
  function TaggedSub(b: seq<byte>, pos: nat, h: Heap): (r: Parsed<Heap>)
    requires pos <= |b|
    ensures r.Done? ==> pos < r.pos <= |b|
  {
    match ReadN(b, pos, 1) case Fatal => Fatal case Done(tag, p1) =>
    ParseSub(b, p1, tag, h)
  }

  lemma ContentTurn(b: seq<byte>, pos: nat, stop: nat, h: Heap)
    requires pos <= |b| && pos < stop
    ensures ParseContent(b, pos, stop, h) ==
            match TaggedSub(b, pos, h)
            case Fatal => Fatal
            case Done(h1, p1) => ParseContent(b, p1, stop, h1)
  {}

  /** The records up to the heap-dump-end record. */
  function ParseRecords(b: seq<byte>, pos: nat, h: Heap): (r: Parsed<Heap>)
    requires pos <= |b|
    decreases |b| - pos
  {
    match ReadN(b, pos, 1) case Fatal => Fatal case Done(tag, p1) =>
    match Take(b, p1, 4) case Fatal => Fatal case Done(_, p2) =>
    match ReadN(b, p2, 4) case Fatal => Fatal case Done(length, p3) =>
    if tag == HEAP_DUMP_END then Done(h, p3)
    else
      match ParseRecord(b, p3, tag, Count(length), h) case Fatal => Fatal case Done(h1, p4) =>
      ParseRecords(b, p4, h1)
  }

  function ParseRecord(b: seq<byte>, pos: nat, tag: int, length: nat, h: Heap): (r: Parsed<Heap>)
    requires pos <= |b|
    ensures r.Done? ==> pos <= r.pos <= |b| && r.value.idSize == h.idSize
  {
    if tag == STRINGS then
      if length < h.idSize then Fatal else
      match ReadN(b, pos, h.idSize) case Fatal => Fatal case Done(id, p1) =>
      match Take(b, p1, length - h.idSize) case Fatal => Fatal case Done(text, p2) =>
      Done(h.(strings := h.strings[id := text]), p2)
    else if tag == LOAD_CLASS then
      match Take(b, pos, 4) case Fatal => Fatal case Done(_, p1) =>
      match ReadN(b, p1, h.idSize) case Fatal => Fatal case Done(c, p2) =>
      match Take(b, p2, 4) case Fatal => Fatal case Done(_, p3) =>
      match ReadN(b, p3, h.idSize) case Fatal => Fatal case Done(name, p4) =>
      Done(h.(classNames := h.classNames[c := name]), p4)
    else if tag == HEAP_DUMP || tag == HEAP_DUMP_SEGMENT then
      ParseContent(b, pos, pos + length, h)
    else
      match Take(b, pos, length) case Fatal => Fatal case Done(_, p) =>
      Done(h, p)
  }

  function CString(b: seq<byte>, pos: nat): (r: Parsed<seq<byte>>)
    requires pos <= |b|
    ensures r.Done? ==> pos <= r.pos <= |b|
    decreases |b| - pos
  {
    match ReadN(b, pos, 1) case Fatal => Fatal case Done(c, p1) =>
    if b[pos] == 0 then Done([], p1) else
    match CString(b, p1) case Fatal => Fatal case Done(rest, p2) =>
    Done([b[pos]] + rest, p2)
  }

  function Ascii(s: string): seq<byte> {
    seq(|s|, i requires 0 <= i < |s| => s[i] as int % 256)
  }

  const VERSIONS: set<seq<byte>> :=
    { Ascii("JAVA PROFILE 1.0"), Ascii("JAVA PROFILE 1.0.1"), Ascii("JAVA PROFILE 1.0.2"), Ascii("JAVA PROFILE 1.0.3") }

  /** The whole file, up to the pass over the instances. */
  function ParseFile(b: seq<byte>): Parsed<Heap> {
    match CString(b, 0) case Fatal => Fatal case Done(version, p1) =>
    if version !in VERSIONS then Fatal else
    match ReadN(b, p1, 4) case Fatal => Fatal case Done(n, p2) =>
    if n == 0 then Fatal else
    match Take(b, p2, 8) case Fatal => Fatal case Done(_, p3) =>
    ParseRecords(b, p3, EMPTY_HEAP.(idSize := Count(n)))
  }
}
