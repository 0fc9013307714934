/** From the bytes of a dump to the reported leaks (`HprofAnalyzerImpl::Analyze`). */
module Pipeline {
  import opened HprofHeap
  import opened HprofReader
  import opened HprofFormat
  import opened HprofDump
  import opened HprofEngine
  import opened HprofLazy
  import opened LeakChains
  import opened LeakReport

  /** A path from a GC root to `x` along references of the dump that no matcher excludes. */
  ghost predicate LeakPath(h: Heap, ms: seq<Matcher>, natives: seq<Id>, p: seq<Id>, x: Id) {
    && p != [] && p[0] in h.gcRoots && p[|p| - 1] == x
    && forall i {:trigger LeakStep(h, ms, natives, p, i)} :: LeakStep(h, ms, natives, p, i)
  }

  ghost predicate LeakStep(h: Heap, ms: seq<Matcher>, natives: seq<Id>, p: seq<Id>, i: int) {
    0 <= i < |p| - 1 ==> LeakEdge(h, ms, natives, p[i], p[i + 1])
  }

  lemma PathsAre(h: Heap, g: Heap, ms: seq<Matcher>, natives: seq<Id>, p: seq<Id>, x: Id)
    requires LazyOutcome(h, g, ms, natives)
    ensures LeakPath(h, ms, natives, p, x) <==> RootPath(g.references, g.gcRoots, p, x)
  {
    forall i ensures LeakStep(h, ms, natives, p, i) <==> StepAt(g.references, p, i) {
      if 0 <= i < |p| - 1 { assert LeftAt(h, g, ms, natives, p[i], p[i + 1]); }
    }
  }

  /** `x` is `n` references away from the GC roots of the dump. */
  ghost predicate LeakDistance(h: Heap, ms: seq<Matcher>, natives: seq<Id>, x: Id, n: int) {
    && (exists p :: LeakPath(h, ms, natives, p, x) && |p| == n + 1)
    && (forall p :: LeakPath(h, ms, natives, p, x) ==> |p| >= n + 1)
  }

  ghost predicate LeakReachable(h: Heap, ms: seq<Matcher>, natives: seq<Id>, x: Id) {
    exists p :: LeakPath(h, ms, natives, p, x)
  }

  /** What the reports say about the parsed heap `h`: each is of a tracked object that is
      not a root, with its distance as depth, and every tracked object that can be reached
      is reported, unless a class on a shortest chain has no name. */
  ghost predicate Right(h: Heap, g: Heap, ms: seq<Matcher>, natives: seq<Id>, leaks: seq<Id>,
                        of: seq<Id>, result: seq<LeakReport>)
  {
    && |of| == |result|
    && (forall i :: 0 <= i < |of| ==>
          of[i] in leaks && of[i] !in h.gcRoots && LeakDistance(h, ms, natives, of[i], |result[i].nodes|))
    && (forall x :: x in leaks && x !in h.gcRoots && LeakReachable(h, ms, natives, x) ==> Settled(g, of, x))
  }

  lemma DistancesAre(h: Heap, g: Heap, ms: seq<Matcher>, natives: seq<Id>, x: Id, n: int)
    requires LazyOutcome(h, g, ms, natives) && Distance(g.references, g.gcRoots, x, n)
    ensures LeakDistance(h, ms, natives, x, n)
  {
    var p :| RootPath(g.references, g.gcRoots, p, x) && |p| == n + 1;
    PathsAre(h, g, ms, natives, p, x);
    forall q | LeakPath(h, ms, natives, q, x) ensures |q| >= n + 1 { PathsAre(h, g, ms, natives, q, x); }
  }

  lemma ReportsAreRight(h: Heap, g: Heap, ms: seq<Matcher>, natives: seq<Id>, leaks: seq<Id>,
                        of: seq<Id>, result: seq<LeakReport>)
    requires LazyOutcome(h, g, ms, natives) && Analyzed(g, leaks, of, result)
    ensures Right(h, g, ms, natives, leaks, of, result)
  {
    forall i | 0 <= i < |of|
      ensures of[i] in leaks && of[i] !in h.gcRoots && LeakDistance(h, ms, natives, of[i], |result[i].nodes|)
    {
      assert Reported(g, leaks, of[i], result[i]);
      DistancesAre(h, g, ms, natives, of[i], |result[i].nodes|);
    }
    forall x | x in leaks && x !in h.gcRoots && LeakReachable(h, ms, natives, x) ensures Settled(g, of, x) {
      var p :| LeakPath(h, ms, natives, p, x);
      PathsAre(h, g, ms, natives, p, x);
    }
  }

  /** The whole analysis of the bytes of a well-formed dump with acyclic inheritance.
      `ms` are the field matchers as they resolve in the parsed heap, `finder` picks the
      tracked objects; `g` is the heap that is searched.  The analysis fails exactly for
      the reasons that the pass or an object of unknown type give it. */
  method AnalyzeBytes(data: seq<byte>, ms: seq<Matcher>, natives: seq<Id>, threads: seq<Option<seq<byte>>>,
                      threadName: (Heap, Id) -> Option<seq<byte>>, finder: Heap -> seq<Id>,
                      ghost d: Dump, ghost fields: seq<FieldMatcher>, ghost rank: Id -> nat)
    returns (ok: bool, result: seq<LeakReport>, of: seq<Id>, g: Heap)
    requires GoodDump(d) && data == Encode(d)
    requires Ranked(Meaning(d).inheritance, rank) && ms == Flatten(Meaning(d), fields)
    ensures ok ==> PassRan(Meaning(d), g, ms, natives, threads, threadName) && Analyzed(g, finder(g), of, result)
    ensures ok && threads == [] ==>
              LazyOutcome(Meaning(d), g, ms, natives) && Right(Meaning(d), g, ms, natives, finder(g), of, result)
    ensures PassFails(Meaning(d), ms) ==> !ok
    ensures !ok && !PassFails(Meaning(d), ms) ==>
              && PassRan(Meaning(d), g, ms, natives, threads, threadName)
              && exists x :: x in finder(g) && x !in g.gcRoots && Untyped(g, x)
  {
    result, of := [], [];
    var engine := new Engine(data);
    ok := engine.Parse();
    ParseOfEncode(d);
    var pass := new LazyPass(engine.heap);
    ok := pass.LazyParse(ms, natives, threads, threadName, rank);
    g := pass.heap;
    if ok {
      ok, result, of := Analyze(g, finder(g));
      if ok && threads == [] {
        ReportsAreRight(Meaning(d), g, ms, natives, finder(g), of, result);
      }
    }
  }
}
