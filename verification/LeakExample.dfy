/** A dump on which excluding a field adds a reported leak.

    Object 1 is an instance of class 10 ("A") whose field "f" holds object 2; the other
    objects are arrays.  Object 2 holds 5, object 6 holds 3, object 3 holds 4 and object 4
    holds 5.  Objects 1 and 6 are GC roots, object 5 is tracked.

    The class of object 2 is number 11, for which the dump has no record, so the short
    chain 1, 2, 5 cannot be reported.  Without the field the long chain 6, 3, 4, 5 is the
    shortest one, and that can be.
 */
module LeakExample {
  import opened HprofHeap
  import opened HprofReader
  import opened HprofFormat
  import opened HprofDump
  import opened LeakExclusion

  const FOUR: seq<byte> := [0, 0, 0, 0]
  const EIGHT: seq<byte> := [0, 0, 0, 0, 0, 0, 0, 0]

  const CLASS_A: SubRecord := ClassDump(10, FOUR, 0, EIGHT + [0], [], [], [Field(9, Object)])
  const ROOT_1: SubRecord := Root(JniLocal, 1, EIGHT)
  const ROOT_6: SubRecord := Root(JniLocal, 6, EIGHT)
  const OBJECT_1: SubRecord := InstanceDump(1, FOUR, 10, [2])

  function Array(a: Id, c: Id, elements: seq<Id>): SubRecord {
    ObjectArrayDump(a, FOUR, c, elements)
  }

  function Subs(): seq<SubRecord> {
    [CLASS_A, ROOT_1, ROOT_6, OBJECT_1, Array(2, 11, [5]), Array(3, 10, [4]), Array(4, 10, [5]), Array(5, 10, []),
     Array(6, 10, [3])]
  }

  /** Class 10 is called "A" and has a field "f"; class 11 is never loaded. */
  function Records(): seq<Record> {
    [StringRecord(FOUR, 7, [65]), StringRecord(FOUR, 9, [102]), LoadClass(FOUR, FOUR, 10, FOUR, 7),
     HeapContent(FOUR, false, Subs())]
  }

  ghost function Example(version: seq<byte>): Dump {
    Dump(version, 1, EIGHT, Records(), FOUR, FOUR, [])
  }

  function Names(): map<Id, Id> {
    map[10 := 7]
  }

  function Strings(): map<Id, seq<byte>> {
    map[7 := [65], 9 := [102]]
  }

  // ----- the dump is well formed

  lemma {:induction false} SubsLength(n: nat, rs: seq<SubRecord>)
    requires forall i :: 0 <= i < |rs| ==> |SubBody(n, rs[i])| <= 99
    ensures |EncodeSubs(n, rs)| <= 100 * |rs|
  {
    if rs != [] { SubsLength(n, rs[1..]); }
  }

  lemma ClassIsGood()
    ensures GoodSub(1, CLASS_A) && |SubBody(1, CLASS_A)| <= 99
  {
    assert EncodeConstants([]) == [] && EncodeStatics(1, []) == [];
    assert |EncodeFields(1, [Field(9, Object)])| == 2 by { assert EncodeFields(1, []) == []; }
  }

  lemma ArrayIsGood(a: Id, c: Id, elements: seq<Id>)
    requires 0 < a < 256 && 0 < c < 256 && |elements| <= 1 && (elements != [] ==> 0 < elements[0] < 256)
    ensures GoodSub(1, Array(a, c, elements)) && |SubBody(1, Array(a, c, elements))| <= 99
  {
    PowersOf256();
    if elements != [] { assert EncodeIds(1, elements[1..]) == []; }
  }

  lemma SubsAreGood()
    ensures forall i :: 0 <= i < |Subs()| ==> GoodSub(1, Subs()[i]) && |SubBody(1, Subs()[i])| <= 99
  {
    PowersOf256();
    ClassIsGood();
    ArrayIsGood(2, 11, [5]);
    ArrayIsGood(3, 10, [4]);
    ArrayIsGood(4, 10, [5]);
    ArrayIsGood(5, 10, []);
    ArrayIsGood(6, 10, [3]);
  }

  lemma TextIsGood(id: Id, c: byte)
    requires 0 <= id < 256
    ensures GoodRecord(1, StringRecord(FOUR, id, [c]))
  {
    PowersOf256();
  }

  lemma LoadIsGood()
    ensures GoodRecord(1, LoadClass(FOUR, FOUR, 10, FOUR, 7))
  {
    PowersOf256();
  }

  lemma ContentIsGood()
    ensures GoodRecord(1, HeapContent(FOUR, false, Subs()))
  {
    SubsAreGood();
    SubsLength(1, Subs());
  }

  lemma RecordsAreGood()
    ensures forall i :: 0 <= i < |Records()| ==> GoodRecord(1, Records()[i])
  {
    TextIsGood(7, 65);
    TextIsGood(9, 102);
    LoadIsGood();
    ContentIsGood();
    FourAreGood(1, StringRecord(FOUR, 7, [65]), StringRecord(FOUR, 9, [102]), LoadClass(FOUR, FOUR, 10, FOUR, 7),
                HeapContent(FOUR, false, Subs()));
  }

  lemma FourAreGood(n: nat, a: Record, b: Record, c: Record, d: Record)
    requires GoodRecord(n, a) && GoodRecord(n, b) && GoodRecord(n, c) && GoodRecord(n, d)
    ensures var rs := [a, b, c, d]; forall i :: 0 <= i < |rs| ==> GoodRecord(n, rs[i])
  {}

  lemma ExampleIsGood(version: seq<byte>)
    requires version in VERSIONS
    ensures GoodDump(Example(version))
  {
    RecordsAreGood();
  }

  // ----- its meaning

  lemma SubsStep(h: Heap, rs: seq<SubRecord>, i: nat)
    requires i < |rs|
    ensures ApplySubs(h, rs[i..]) == ApplySubs(ApplySub(h, rs[i]), rs[i + 1..])
  {
    assert rs[i..][1..] == rs[i + 1..];
  }

  lemma ArrayStep(h: Heap, a: Id, c: Id, x: Id)
    ensures ApplySub(h, Array(a, c, [x])) == AddReference(ArrayHead(h, a, c), a, ElementRef(0), x)
    ensures ApplySub(h, Array(a, c, [])) == ArrayHead(h, a, c)
  {
    var h1 := ArrayHead(h, a, c);
    assert [x][1..] == [];
    assert ApplyElements(h1, a, 0, [x]) == ApplyElements(AddReference(h1, a, ElementRef(0), x), a, 1, []);
  }

  lemma ClassStep(h: Heap)
    requires h.instanceFields == map[] && h.inheritance == map[] && h.instanceTypes == map[]
    ensures ApplySub(h, CLASS_A) == h.(instanceTypes := map[10 := Class], inheritance := map[10 := 0],
                                       instanceFields := map[10 := [Field(9, Object)]])
  {
    var h1 := ClassHead(h, 10, 0);
    assert ApplyStatics(h1, 10, []) == h1;
    assert [Field(9, Object)][1..] == [] && [] + [Field(9, Object)] == [Field(9, Object)];
    assert ApplyFields(h1, 10, [Field(9, Object)]) == ApplyFields(AddField(h1, 10, Field(9, Object)), 10, []);
  }

  /** The heap once the names are known, then the class and the roots, then some objects. */
  ghost function Loaded(): Heap {
    EMPTY_HEAP.(idSize := 1, classNames := Names(), strings := Strings())
  }

  ghost function Rooted(): Heap {
    Loaded().(
      inheritance := map[10 := 0], instanceFields := map[10 := [Field(9, Object)]], instanceTypes := map[10 := Class],
      gcRoots := [1, 6], gcRootTypes := map[1 := JniLocal, 6 := JniLocal])
  }

  ghost function Halfway(): Heap {
    Rooted().(
      instanceTypes := map[10 := Class][1 := Instance][2 := ObjectArray][3 := ObjectArray],
      instanceClasses := map[1 := 10, 2 := 11, 3 := 10],
      fieldsData := map[1 := FieldsData(10, [2])],
      references := map[2 := map[5 := ElementRef(0)], 3 := map[4 := ElementRef(0)]])
  }

  lemma ClassAndRoots()
    ensures ApplySub(ApplySub(ApplySub(Loaded(), CLASS_A), ROOT_1), ROOT_6) == Rooted()
  {
    ClassStep(Loaded());
    var h := ApplySub(ApplySub(ApplySub(Loaded(), CLASS_A), ROOT_1), ROOT_6);
    assert h.gcRoots == [1, 6] && h.gcRootTypes == map[1 := JniLocal, 6 := JniLocal];
  }

  lemma FirstObjects()
    ensures ApplySub(ApplySub(ApplySub(Rooted(), OBJECT_1), Array(2, 11, [5])), Array(3, 10, [4])) == Halfway()
  {
    var h := ApplySub(Rooted(), OBJECT_1);
    ArrayStep(h, 2, 11, 5);
    var h' := ApplySub(h, Array(2, 11, [5]));
    ArrayStep(h', 3, 10, 4);
    var r := AddEdge(AddEdge(map[], 2, ElementRef(0), 5), 3, ElementRef(0), 4);
    assert r == map[2 := map[5 := ElementRef(0)], 3 := map[4 := ElementRef(0)]];
  }

  lemma LastObjects()
    ensures ApplySub(ApplySub(ApplySub(Halfway(), Array(4, 10, [5])), Array(5, 10, [])), Array(6, 10, [3]))
         == ParsedHeap(Names(), Strings(), 10, 11)
  {
    var h := Halfway();
    ArrayStep(h, 4, 10, 5);
    var h' := ApplySub(h, Array(4, 10, [5]));
    ArrayStep(h', 5, 10, 0);
    var h'' := ApplySub(h', Array(5, 10, []));
    ArrayStep(h'', 6, 10, 3);
    var r := AddEdge(AddEdge(h.references, 4, ElementRef(0), 5), 6, ElementRef(0), 3);
    assert r == Elements();
  }

  /** Three sub-records at a time. */
  lemma ThreeSubs(h: Heap, rs: seq<SubRecord>, i: nat)
    requires i + 3 <= |rs|
    ensures ApplySubs(h, rs[i..]) == ApplySubs(ApplySub(ApplySub(ApplySub(h, rs[i]), rs[i + 1]), rs[i + 2]), rs[i + 3..])
  {
    SubsStep(h, rs, i);
    SubsStep(ApplySub(h, rs[i]), rs, i + 1);
    SubsStep(ApplySub(ApplySub(h, rs[i]), rs[i + 1]), rs, i + 2);
  }

  lemma SubsMean()
    ensures ApplySubs(Loaded(), Subs()) == ParsedHeap(Names(), Strings(), 10, 11)
  {
    var rs := Subs();
    assert rs[0..] == rs && rs[9..] == [];
    ThreeSubs(Loaded(), rs, 0);
    ClassAndRoots();
    ThreeSubs(Rooted(), rs, 3);
    FirstObjects();
    ThreeSubs(Halfway(), rs, 6);
    LastObjects();
  }

  lemma RecordStep(h: Heap, rs: seq<Record>, i: nat)
    requires i < |rs|
    ensures ApplyRecords(h, rs[i..]) == ApplyRecords(ApplyRecord(h, rs[i]), rs[i + 1..])
  {
    assert rs[i..][1..] == rs[i + 1..];
  }

  lemma NamesMean()
    ensures ApplyRecord(ApplyRecord(ApplyRecord(EMPTY_HEAP.(idSize := 1), Records()[0]), Records()[1]), Records()[2])
         == Loaded()
  {}

  lemma ExampleMeans(version: seq<byte>)
    ensures Meaning(Example(version)) == ParsedHeap(Names(), Strings(), 10, 11)
  {
    RecordsMean();
  }

  lemma RecordsMean()
    ensures ApplyRecords(EMPTY_HEAP.(idSize := 1), Records()) == ParsedHeap(Names(), Strings(), 10, 11)
  {
    FourRecords(EMPTY_HEAP.(idSize := 1), Records());
    NamesMean();
    ContentMeans();
  }

  lemma ContentMeans()
    ensures ApplyRecord(Loaded(), Records()[3]) == ParsedHeap(Names(), Strings(), 10, 11)
  {
    SubsMean();
  }

  lemma FourRecords(h: Heap, rs: seq<Record>)
    requires |rs| == 4
    ensures ApplyRecords(h, rs) == ApplyRecord(ApplyRecord(ApplyRecord(ApplyRecord(h, rs[0]), rs[1]), rs[2]), rs[3])
  {
    assert rs[0..] == rs && rs[4..] == [];
    RecordStep(h, rs, 0);
    RecordStep(ApplyRecord(h, rs[0]), rs, 1);
    RecordStep(ApplyRecord(ApplyRecord(h, rs[0]), rs[1]), rs, 2);
    RecordStep(ApplyRecord(ApplyRecord(ApplyRecord(h, rs[0]), rs[1]), rs[2]), rs, 3);
  }

  lemma ClassesOfExample()
    ensures Named(Names(), Strings(), 10) && !Named(Names(), Strings(), 11)
  {}

  /** A well-formed dump of any version, analysed without a matcher and with the one for
      every field: nothing is reported without it, object 5 is reported with it. */
  lemma ReportAdded(version: seq<byte>) returns (d: Dump, t: Comparison)
    requires version in VERSIONS
    ensures GoodDump(d) && d.version == version && t.parsed == Meaning(d)
    ensures Compared(t) && t.ms == [] && t.more == EVERYTHING && t.leaks == [5] && t.of == [] && t.of' == [5]
  {
    ExampleIsGood(version);
    ExampleMeans(version);
    ClassesOfExample();
    ExclusionCanAddReports(Names(), Strings(), 10, 11);
    d, t := Example(version), Witness(Names(), Strings(), 10, 11);
  }
}
