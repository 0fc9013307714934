/** From chains to reports (`BuildLeakChain`, `HprofAnalyzerImpl::Analyze`). */
module LeakReport {
  import opened HprofHeap
  import opened LeakChains

  /** How a node is reached: an array index or the text of a field name. */
  datatype Label = Index(index: int) | Name(text: seq<byte>)

  datatype ReportNode = ReportNode(via: Label, kind: RefKind, className: seq<byte>, typ: ObjectType)

  datatype LeakReport = LeakReport(rootClass: seq<byte>, rootType: RootType, nodes: seq<ReportNode>)

  /** `Fatal` is a fatal exit, `Nameless` a chain that cannot be reported. */
  datatype Built = Fatal | Nameless | Built(report: LeakReport)

  /** The class named in the report: a class with a static reference stands for itself. */
  function ClassOf(h: Heap, e: (Id, Option<Reference>)): Option<Id> {
    if e.1.Some? && e.1.value.kind.StaticField? then Some(e.0)
    else if e.0 in h.instanceClasses then Some(h.instanceClasses[e.0])
    else None
  }

  /** `GetClassName`; an object without a class has no class name either. */
  function NameOf(names: map<Id, Id>, strings: map<Id, seq<byte>>, c: Option<Id>): Option<seq<byte>> {
    if c.None? || c.value !in names || names[c.value] !in strings then None else Some(strings[names[c.value]])
  }

  function ClassNameOf(h: Heap, e: (Id, Option<Reference>)): Option<seq<byte>> {
    NameOf(h.classNames, h.strings, ClassOf(h, e))
  }

  function LabelOf(h: Heap, r: Reference): Label {
    if r.kind.ArrayElement? then Index(r.index)
    else Name(if r.fieldName in h.strings then h.strings[r.fieldName] else [])
  }

  /** The node for entry `i + 1`, which entry `i` refers to. */
  ghost predicate IsNode(h: Heap, c: Chain, i: int, n: ReportNode) {
    && 0 <= i < |c| - 1 && c[i].1.Some? && c[i + 1].0 in h.instanceTypes
    && ClassNameOf(h, c[i + 1]) == Some(n.className)
    && n.kind == c[i].1.value.kind && n.typ == h.instanceTypes[c[i + 1].0]
    && Via(h, c[i].1.value, n.via)
  }

  /** An array element is labelled with its index, a field with its name, which is empty
      if the dump has no string for it. */
  ghost predicate Via(h: Heap, r: Reference, l: Label) {
    match r.kind
    case ArrayElement => l == Index(r.index)
    case _ => l.Name? && if r.fieldName in h.strings then l.text == h.strings[r.fieldName] else l.text == []
  }

  /** The class that entry `e` of a chain stands for: itself if a static field leads on
      from it, the class of the instance otherwise. */
  ghost predicate StandsFor(h: Heap, e: (Id, Option<Reference>), c: Id) {
    match e.1
    case Some(Reference(StaticField, _, _)) => c == e.0
    case _ => e.0 in h.instanceClasses && h.instanceClasses[e.0] == c
  }

  ghost predicate Named(h: Heap, e: (Id, Option<Reference>), name: seq<byte>) {
    exists c :: StandsFor(h, e, c) && c in h.classNames && h.classNames[c] in h.strings && h.strings[h.classNames[c]] == name
  }

  /** The name in the report is the string for the name of that class, if there is one. */
  lemma ClassNameMeans(h: Heap, e: (Id, Option<Reference>), name: seq<byte>)
    ensures ClassNameOf(h, e) == Some(name) <==> Named(h, e, name)
    ensures ClassNameOf(h, e).None? <==> !exists n :: Named(h, e, n)
  {
    if ClassNameOf(h, e).Some? {
      assert StandsFor(h, e, ClassOf(h, e).value);
      assert Named(h, e, ClassNameOf(h, e).value);
    }
  }

  ghost predicate IsReport(h: Heap, c: Chain, r: LeakReport) {
    && c != [] && c[0].0 in h.gcRootTypes
    && ClassNameOf(h, c[0]) == Some(r.rootClass) && r.rootType == h.gcRootTypes[c[0].0]
    && |r.nodes| == |c| - 1
    && forall i :: 0 <= i < |r.nodes| ==> IsNode(h, c, i, r.nodes[i])
  }

  /** A report has one node per reference of the chain, so its depth is the length of
      the path; a chain is refused exactly when some class on it has no name. */
  method BuildLeakChain(h: Heap, g: Graph, c: Chain) returns (built: Built)
    requires Labelled(g, c)
    ensures built.Built? ==> IsReport(h, c, built.report)
    ensures built.Nameless? ==> exists i :: 0 <= i < |c| && ClassNameOf(h, c[i]).None?
    ensures built.Fatal? ==> c[0].0 !in h.gcRootTypes || exists i :: 0 < i < |c| && c[i].0 !in h.instanceTypes
  {
    var rootClass, rootType, nodes: seq<ReportNode> := [], Unknown, [];
    var next := Reference(StaticField, 0, 0);
    for i := 0 to |c|
      invariant i > 0 ==> c[0].0 in h.gcRootTypes && ClassNameOf(h, c[0]) == Some(rootClass) && rootType == h.gcRootTypes[c[0].0]
      invariant |nodes| == if i == 0 then 0 else i - 1
      invariant 0 < i < |c| ==> c[i - 1].1 == Some(next)
      invariant forall k :: 0 <= k < |nodes| ==> IsNode(h, c, k, nodes[k])
    {
      var name := ClassNameOf(h, c[i]);
      if name.None? {
        return Nameless;
      }
      if i == 0 {
        if c[i].0 !in h.gcRootTypes { return Fatal; }
        rootClass, rootType := name.value, h.gcRootTypes[c[i].0];
      } else {
        if c[i].0 !in h.instanceTypes { return Fatal; }
        nodes := nodes + [ReportNode(LabelOf(h, next), next.kind, name.value, h.instanceTypes[c[i].0])];
      }
      if c[i].1.None? {
        assert LinkAt(g, c, i);
        assert i == |c| - 1;
        break;
      }
      next := c[i].1.value;
    }
    built := Built(LeakReport(rootClass, rootType, nodes));
  }

  /** The number of references on a shortest path from a GC root to `x` is `d`. */
  ghost predicate Distance(g: Graph, roots: seq<Id>, x: Id, d: int) {
    && (exists p :: RootPath(g, roots, p, x) && |p| == d + 1)
    && (forall p :: RootPath(g, roots, p, x) ==> |p| >= d + 1)
  }

  ghost predicate Reported(h: Heap, leaks: seq<Id>, leak: Id, r: LeakReport) {
    && leak in leaks && leak !in h.gcRoots
    && Distance(h.references, h.gcRoots, leak, |r.nodes|)
    && DescribesChain(h, leak, r)
  }

  /** The root, the classes, the types and the labels of the report are those of a
      shortest chain to the object. */
  ghost predicate DescribesChain(h: Heap, leak: Id, r: LeakReport) {
    exists c :: GoodChain(h.references, h.gcRoots, leak, c) && IsReport(h, c, r)
  }

  lemma ChainDistance(g: Graph, roots: seq<Id>, leak: Id, c: Chain)
    requires GoodChain(g, roots, leak, c)
    ensures Distance(g, roots, leak, |c| - 1)
  {
    assert RootPath(g, roots, Ids(c), leak) && |Ids(c)| == |c|;
  }

  method ReportOne(h: Heap, ghost leaks: seq<Id>, ghost leak: Id, c: Chain) returns (built: Built)
    requires leak in leaks && leak !in h.gcRoots && GoodChain(h.references, h.gcRoots, leak, c)
    ensures built.Built? ==> Reported(h, leaks, leak, built.report) && IsReport(h, c, built.report)
    ensures built.Nameless? ==> Unnameable(h, leak)
    ensures built.Fatal? ==> Untyped(h, leak)
  {
    ChainDistance(h.references, h.gcRoots, leak, c);
    built := BuildLeakChain(h, h.references, c);
  }

  /** Some shortest chain to the object goes through a class without a name. */
  ghost predicate Unnameable(h: Heap, leak: Id) {
    exists c :: GoodChain(h.references, h.gcRoots, leak, c) && exists i :: 0 <= i < |c| && ClassNameOf(h, c[i]).None?
  }

  /** Some shortest chain to the object has a root or a later object of unknown type,
      which is fatal. */
  ghost predicate Untyped(h: Heap, leak: Id) {
    exists c: Chain ::
      && GoodChain(h.references, h.gcRoots, leak, c)
      && (c[0].0 !in h.gcRootTypes || exists i :: 0 < i < |c| && c[i].0 !in h.instanceTypes)
  }

  /** The reports so far, `of[i]` being the object of the `i`-th one. */
  ghost predicate Listed(h: Heap, leaks: seq<Id>, of: seq<Id>, result: seq<LeakReport>) {
    && |of| == |result|
    && (forall i :: 0 <= i < |result| ==> Reported(h, leaks, of[i], result[i]))
    && (forall i, j :: 0 <= i < j < |of| ==> of[i] != of[j])
  }

  lemma ListedMore(h: Heap, leaks: seq<Id>, of: seq<Id>, result: seq<LeakReport>, leak: Id, r: LeakReport)
    requires Listed(h, leaks, of, result) && leak !in of && Reported(h, leaks, leak, r)
    ensures Listed(h, leaks, of + [leak], result + [r])
  {}

  ghost predicate Settled(h: Heap, of: seq<Id>, leak: Id) {
    leak in of || Unnameable(h, leak)
  }

  /** The chains outside `rest` are settled, and no chain in `rest` is reported yet. */
  ghost predicate Handled(h: Heap, all: set<Id>, rest: set<Id>, of: seq<Id>) {
    && (forall x {:trigger Settled(h, of, x)} :: x in all && x !in rest ==> Settled(h, of, x))
    && (forall x :: x in rest ==> x !in of)
  }

  lemma HandledMore(h: Heap, all: set<Id>, rest: set<Id>, of: seq<Id>, x: Id, of': seq<Id>)
    requires Handled(h, all, rest, of) && x in rest
    requires of' == of + [x] || (of' == of && Unnameable(h, x))
    ensures Handled(h, all, rest - {x}, of')
  {
    forall y | y in all && y !in rest - {x} ensures Settled(h, of', y) {
      if y != x { assert Settled(h, of, y); }
    }
  }

  /** What a completed analysis reports: tracked objects that are not GC roots, none
      twice, each with a report of a shortest chain; and of the tracked objects that are
      reachable and not GC roots all but those with a shortest chain that cannot be named. */
  ghost predicate Analyzed(h: Heap, leaks: seq<Id>, of: seq<Id>, result: seq<LeakReport>) {
    && Listed(h, leaks, of, result)
    && forall x :: x in leaks && x !in h.gcRoots && ReachableFrom(h.references, h.gcRoots, x) ==> Settled(h, of, x)
  }

  /** Reports are never wrong, a completed analysis reports what it should, and the
      analysis gives up only at an object of unknown type on a chain. */
  method Analyze(h: Heap, leaks: seq<Id>) returns (ok: bool, result: seq<LeakReport>, of: seq<Id>)
    ensures Listed(h, leaks, of, result)
    ensures ok ==> Analyzed(h, leaks, of, result)
    ensures !ok ==> exists x :: x in leaks && x !in h.gcRoots && Untyped(h, x)
  {
    var chains := FindLeakChains(h.references, h.gcRoots, leaks);
    result, of, ok := [], [], true;
    var rest := chains.Keys;
    while rest != {}
      invariant rest <= chains.Keys && Listed(h, leaks, of, result) && Handled(h, chains.Keys, rest, of)
    {
      var leak := Pick(rest);
      var built := ReportOne(h, leaks, leak, chains[leak]);
      match built {
        case Fatal => return false, result, of;
        case Nameless => HandledMore(h, chains.Keys, rest, of, leak, of);
        case Built(report) =>
          HandledMore(h, chains.Keys, rest, of, leak, of + [leak]);
          ListedMore(h, leaks, of, result, leak, report);
          result, of := result + [report], of + [leak];
      }
      rest := rest - {leak};
    }
  }
}
