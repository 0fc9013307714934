/** The records that the HPROF parser collects (`heap::Heap`). */
module HprofHeap {

  type Id = int
  type byte = b: int | 0 <= b < 256

  datatype Option<+T> = None | Some(value: T)

  datatype ValueType = Object | Boolean | Char | Float | Double | Byte | Short | Int | Long

  datatype RootType =
    | JniGlobal | JniLocal | JavaFrame | NativeStack | StickyClass | ThreadBlock | MonitorUsed
    | ThreadObject | InternedString | Finalizing | Debugger | ReferenceCleanup | VMInternal
    | JniMonitor | Unknown | Unreachable

  datatype ObjectType = Class | ObjectArray | PrimitiveArray | Instance

  datatype RefKind = StaticField | InstanceField | ArrayElement

  /** `reference_t`: the index is zero for fields, the name is zero for elements. */
  datatype Reference = Reference(kind: RefKind, index: int, fieldName: Id)

  function FieldRef(isStatic: bool, name: Id): Reference {
    Reference(if isStatic then StaticField else InstanceField, 0, name)
  }

  function ElementRef(index: int): Reference {
    Reference(ArrayElement, index, 0)
  }

  datatype Field = Field(name: Id, typ: ValueType)

  datatype FieldsData = FieldsData(classId: Id, data: seq<byte>)

  datatype Primitive = Primitive(typ: ValueType, bits: int)

  datatype ArrayData = ArrayData(typ: ValueType, data: seq<byte>)

  /** References are kept per (referrer, referent): two fields that hold the same
      object share one entry. */
  type Graph = map<Id, map<Id, Reference>>

  datatype Heap = Heap(
    idSize: nat,
    classNames: map<Id, Id>,
    inheritance: map<Id, Id>,
    instanceFields: map<Id, seq<Field>>,
    instanceTypes: map<Id, ObjectType>,
    instanceClasses: map<Id, Id>,
    gcRoots: seq<Id>,
    gcRootTypes: map<Id, RootType>,
    threadSerials: map<Id, int>,
    threadObjects: map<int, Id>,
    strings: map<Id, seq<byte>>,
    fieldsData: map<Id, FieldsData>,
    primitives: map<Id, map<Id, Primitive>>,
    primitiveArrays: map<Id, ArrayData>,
    references: Graph,
    excluded: Graph)

  const EMPTY_HEAP := Heap(0, map[], map[], map[], map[], map[], [], map[], map[], map[], map[], map[],
                           map[], map[], map[], map[])

  /** `get_value_type_size`. */
  function TypeSize(t: ValueType): int {
    match t
    case Object => 0
    case Boolean => 1
    case Char => 2
    case Float => 4
    case Double => 8
    case Byte => 1
    case Short => 2
    case Int => 4
    case Long => 8
  }

  function Row(g: Graph, a: Id): map<Id, Reference> {
    if a in g then g[a] else map[]
  }

  function AddEdge(g: Graph, a: Id, r: Reference, b: Id): Graph {
    g[a := Row(g, a)[b := r]]
  }

  predicate Edge(g: Graph, a: Id, b: Id) {
    a in g && b in g[a]
  }

  lemma NonEmpty(s: set<Id>)
    ensures s == {} || exists y :: y in s
  {
    if forall y :: y !in s { assert s == {}; }
  }

  /** Iteration over the keys of a map, in any order. */
  method Pick(s: set<Id>) returns (x: Id)
    requires s != {}
    ensures x in s
  {
    NonEmpty(s);
    x :| x in s;
  }
}
