/** What exclusion matchers do to leak chains and to reported leaks. */
module LeakExclusion {
  import opened HprofHeap
  import opened HprofReader
  import opened LeakChains
  import opened LeakReport
  import opened HprofLazy
  import opened HprofBuilt

  // ----- chains

  ghost predicate Subgraph(small: Graph, big: Graph) {
    forall a, b :: Edge(small, a, b) ==> Edge(big, a, b)
  }

  lemma PathInBigger(small: Graph, big: Graph, roots: seq<Id>, p: seq<Id>, x: Id)
    requires Subgraph(small, big) && RootPath(small, roots, p, x)
    ensures RootPath(big, roots, p, x)
  {
    forall i ensures StepAt(big, p, i) {
      assert StepAt(small, p, i);
    }
  }

  /** What `FindLeakChains` promises of its result. */
  ghost predicate ChainsOf(g: Graph, roots: seq<Id>, tracked: seq<Id>, ret: map<Id, LeakChains.Chain>) {
    && (forall leak :: leak in ret <==> leak in tracked && leak !in roots && ReachableFrom(g, roots, leak))
    && (forall leak :: leak in ret ==> GoodChain(g, roots, leak, ret[leak]))
  }

  lemma FewerEdgesFewerLeaks(small: Graph, big: Graph, roots: seq<Id>, tracked: seq<Id>,
                             fewer: map<Id, LeakChains.Chain>, all: map<Id, LeakChains.Chain>)
    requires Subgraph(small, big) && ChainsOf(small, roots, tracked, fewer) && ChainsOf(big, roots, tracked, all)
    ensures forall leak :: leak in fewer ==> leak in all && |all[leak]| <= |fewer[leak]|
  {
    forall leak | leak in fewer ensures leak in all && |all[leak]| <= |fewer[leak]| {
      var p := Ids(fewer[leak]);
      PathInBigger(small, big, roots, p, leak);
      assert RootPath(big, roots, p, leak) && |p| == |fewer[leak]|;
    }
  }

  lemma ExclusionShrinksGraph(h: Heap, ms: seq<FieldMatcher>, more: seq<FieldMatcher>, natives: seq<Id>,
                              all: Heap, fewer: Heap)
    requires forall u :: u in ms ==> u in more
    requires LazyOutcome(h, all, Flatten(h, ms), natives) && LazyOutcome(h, fewer, Flatten(h, more), natives)
    ensures Subgraph(fewer.references, all.references)
  {
    forall a, b | Edge(fewer.references, a, b) ensures Edge(all.references, a, b) {
      assert LeftAt(h, fewer, Flatten(h, more), natives, a, b) && LeftAt(h, all, Flatten(h, ms), natives, a, b);
      ExclusionOnlyRemoves(h, ms, more, natives, a, b);
    }
  }

  /** Adding instance-field exclusion matchers, with no thread matcher and everything
      else fixed, never adds a leak chain and never shortens one that stays. */
  lemma ExclusionNeverAddsChains(h: Heap, ms: seq<FieldMatcher>, more: seq<FieldMatcher>, natives: seq<Id>,
                                 all: Heap, fewer: Heap, tracked: seq<Id>,
                                 before: map<Id, LeakChains.Chain>, after: map<Id, LeakChains.Chain>)
    requires forall u :: u in ms ==> u in more
    requires LazyOutcome(h, all, Flatten(h, ms), natives) && LazyOutcome(h, fewer, Flatten(h, more), natives)
    requires ChainsOf(all.references, h.gcRoots, tracked, before) && ChainsOf(fewer.references, h.gcRoots, tracked, after)
    ensures forall leak :: leak in after ==> leak in before && |before[leak]| <= |after[leak]|
  {
    ExclusionShrinksGraph(h, ms, more, natives, all, fewer);
    FewerEdgesFewerLeaks(fewer.references, all.references, h.gcRoots, tracked, after, before);
  }

  // ----- reports

  /** Two analyses of one heap as the parser builds it: `before` with the matchers `ms`,
      `after` with `more`. */
  datatype Comparison = Comparison(
    parsed: Heap, natives: seq<Id>, leaks: seq<Id>,
    ms: seq<FieldMatcher>, before: Heap, of: seq<Id>, result: seq<LeakReport>,
    more: seq<FieldMatcher>, after: Heap, of': seq<Id>, result': seq<LeakReport>)

  ghost predicate Compared(t: Comparison) {
    && WellBuilt(t.parsed)
    && (forall u :: u in t.ms ==> u in t.more)
    && LazyOutcome(t.parsed, t.before, Flatten(t.parsed, t.ms), t.natives)
    && LazyOutcome(t.parsed, t.after, Flatten(t.parsed, t.more), t.natives)
    && Analyzed(t.before, t.leaks, t.of, t.result)
    && Analyzed(t.after, t.leaks, t.of', t.result')
  }

  /** A leak that is reported with more matchers is reported with fewer ones, unless a
      class on a shortest chain to it then has no name. */
  lemma ReportedBefore(t: Comparison, x: Id)
    requires Compared(t) && x in t.of'
    ensures x in t.of || Unnameable(t.before, x)
  {
    var g, g', roots := t.before.references, t.after.references, t.parsed.gcRoots;
    ExclusionShrinksGraph(t.parsed, t.ms, t.more, t.natives, t.before, t.after);
    var j :| 0 <= j < |t.of'| && t.of'[j] == x;
    assert Reported(t.after, t.leaks, x, t.result'[j]);
    var p :| RootPath(g', roots, p, x) && |p| == |t.result'[j].nodes| + 1;
    PathInBigger(g', g, roots, p, x);
    assert ReachableFrom(g, roots, x);
    assert Settled(t.before, t.of, x);
  }

  /** Nor does the report of a leak get shorter. */
  lemma ReportsNoShorter(t: Comparison, i: nat, j: nat)
    requires Compared(t) && i < |t.of| && j < |t.of'| && t.of[i] == t.of'[j]
    ensures |t.result[i].nodes| <= |t.result'[j].nodes|
  {
    var x := t.of[i];
    var g, g', roots := t.before.references, t.after.references, t.parsed.gcRoots;
    ExclusionShrinksGraph(t.parsed, t.ms, t.more, t.natives, t.before, t.after);
    assert Reported(t.before, t.leaks, x, t.result[i]) && Reported(t.after, t.leaks, x, t.result'[j]);
    var p :| RootPath(g', roots, p, x) && |p| == |t.result'[j].nodes| + 1;
    PathInBigger(g', g, roots, p, x);
  }

  // ----- when reports only shrink

  ghost predicate Allowed(kinds: Id -> bool, c: Option<Id>) {
    c.Some? ==> kinds(c.value)
  }

  /** The classes that stand on chains, by what the report looks up for each entry, are
      among `kinds`. */
  ghost predicate Uses(h: Heap, leaks: seq<Id>, kinds: Id -> bool) {
    && (forall a, b :: Edge(h.references, a, b) ==> Allowed(kinds, ClassOf(h, (a, Some(h.references[a][b])))))
    && (forall x :: x in leaks ==> Allowed(kinds, ClassOf(h, (x, None))))
  }

  ghost predicate Named(names: map<Id, Id>, strings: map<Id, seq<byte>>, c: Id) {
    NameOf(names, strings, Some(c)).Some?
  }

  /** Heaps with these name tables and these classes on their chains. */
  ghost predicate Within(t: Comparison, names: map<Id, Id>, strings: map<Id, seq<byte>>, kinds: Id -> bool) {
    && t.parsed.classNames == names && t.parsed.strings == strings
    && Uses(t.before, t.leaks, kinds) && Uses(t.after, t.leaks, kinds)
  }

  ghost predicate OnlyOld(t: Comparison) {
    forall x :: x in t.of' ==> x in t.of
  }

  ghost predicate ReportsOnlyShrink(names: map<Id, Id>, strings: map<Id, seq<byte>>, kinds: Id -> bool) {
    forall t: Comparison :: Compared(t) && Within(t, names, strings, kinds) ==> OnlyOld(t)
  }

  /** Every entry of a chain has an allowed class. */
  lemma EntryKind(h: Heap, leaks: seq<Id>, kinds: Id -> bool, leak: Id, c: LeakChains.Chain, i: int)
    requires Uses(h, leaks, kinds) && leak in leaks && GoodChain(h.references, h.gcRoots, leak, c) && 0 <= i < |c|
    ensures Allowed(kinds, ClassOf(h, c[i]))
  {
    assert LinkAt(h.references, c, i);
    if i == |c| - 1 {
      assert Ids(c)[i] == leak;
      assert c[i] == (leak, None);
    } else {
      assert c[i] == (c[i].0, Some(h.references[c[i].0][c[i + 1].0]));
    }
  }

  /** The pass gives no references to an object without a class. */
  lemma StillHaveClasses(parsed: Heap, h: Heap, ms: seq<Matcher>, natives: seq<Id>)
    requires WellBuilt(parsed) && LazyOutcome(parsed, h, ms, natives)
    ensures ReferrersHaveClasses(h)
  {
    forall a, b | Edge(h.references, a, b) && !h.references[a][b].kind.StaticField? ensures a in h.instanceClasses {
      assert LeftAt(parsed, h, ms, natives, a, b);
      if !FieldEdge(parsed, ms, a, b, false) {
        assert Edge(parsed.references, a, b);
      }
    }
  }

  /** So every entry but the last has a class. */
  lemma InnerEntryHasClass(h: Heap, leak: Id, c: LeakChains.Chain, i: int)
    requires ReferrersHaveClasses(h) && GoodChain(h.references, h.gcRoots, leak, c) && 0 <= i < |c| - 1
    ensures ClassOf(h, c[i]).Some?
  {
    assert LinkAt(h.references, c, i);
  }

  lemma LastEntry(g: Graph, roots: seq<Id>, leak: Id, c: LeakChains.Chain)
    requires GoodChain(g, roots, leak, c)
    ensures c[|c| - 1] == (leak, None)
    ensures leak !in roots ==> |c| >= 2
  {
    assert Ids(c)[|c| - 1] == leak && Ids(c)[0] == c[0].0;
  }

  lemma ReportNamesEntry(h: Heap, c: LeakChains.Chain, r: LeakReport, i: int)
    requires IsReport(h, c, r) && 0 <= i < |c|
    ensures ClassNameOf(h, c[i]).Some?
  {
    if i > 0 { assert IsNode(h, c, i - 1, r.nodes[i - 1]); }
  }

  /** A reported object itself has a class name, in any heap with the same tables. */
  lemma ReportedHasName(t: Comparison, x: Id)
    requires Compared(t) && x in t.of'
    ensures x in t.leaks && ClassNameOf(t.before, (x, None)).Some?
  {
    var j :| 0 <= j < |t.of'| && t.of'[j] == x;
    assert Reported(t.after, t.leaks, x, t.result'[j]);
    DescribedHasName(t.after, x, t.result'[j]);
    SameNames(t.parsed, t.before, x);
    SameNames(t.parsed, t.after, x);
  }

  lemma DescribedHasName(h: Heap, x: Id, r: LeakReport)
    requires DescribesChain(h, x, r)
    ensures ClassNameOf(h, (x, None)).Some?
  {
    var c :| GoodChain(h.references, h.gcRoots, x, c) && IsReport(h, c, r);
    LastEntry(h.references, h.gcRoots, x, c);
    ReportNamesEntry(h, c, r, |c| - 1);
  }

  lemma SameNames(h: Heap, h': Heap, x: Id)
    requires OnlyTables(h, h')
    ensures ClassNameOf(h', (x, None)) == ClassNameOf(h, (x, None))
  {}

  lemma NotUnnameable(t: Comparison, names: map<Id, Id>, strings: map<Id, seq<byte>>, kinds: Id -> bool, x: Id)
    requires Compared(t) && Within(t, names, strings, kinds) && x in t.of'
    requires forall c :: kinds(c) ==> Named(names, strings, c)
    ensures !Unnameable(t.before, x)
  {
    ReportedHasName(t, x);
    StillHaveClasses(t.parsed, t.before, Flatten(t.parsed, t.ms), t.natives);
    forall c, i | GoodChain(t.before.references, t.before.gcRoots, x, c) && 0 <= i < |c|
      ensures ClassNameOf(t.before, c[i]).Some?
    {
      LastEntry(t.before.references, t.before.gcRoots, x, c);
      if i < |c| - 1 {
        InnerEntryHasClass(t.before, x, c, i);
        EntryKind(t.before, t.leaks, kinds, x, c, i);
        assert Named(names, strings, ClassOf(t.before, c[i]).value);
      }
    }
  }

  lemma AllNamedShrinks(t: Comparison, names: map<Id, Id>, strings: map<Id, seq<byte>>, kinds: Id -> bool)
    requires Compared(t) && Within(t, names, strings, kinds)
    requires forall c :: kinds(c) ==> Named(names, strings, c)
    ensures OnlyOld(t)
  {
    forall x | x in t.of' ensures x in t.of {
      ReportedBefore(t, x);
      NotUnnameable(t, names, strings, kinds, x);
    }
  }

  lemma NoneNamedNoReport(h: Heap, leaks: seq<Id>, kinds: Id -> bool, x: Id, r: LeakReport)
    requires Uses(h, leaks, kinds) && x in leaks && forall c :: kinds(c) ==> !Named(h.classNames, h.strings, c)
    ensures !DescribesChain(h, x, r)
  {
    forall c | GoodChain(h.references, h.gcRoots, x, c) ensures !IsReport(h, c, r) {
      EntryKind(h, leaks, kinds, x, c, 0);
      var k := ClassOf(h, c[0]);
      assert k.Some? ==> !Named(h.classNames, h.strings, k.value);
      NamelessIsNoReport(h, c, 0, r);
    }
  }

  lemma NoneNamedShrinks(t: Comparison, names: map<Id, Id>, strings: map<Id, seq<byte>>, kinds: Id -> bool)
    requires Compared(t) && Within(t, names, strings, kinds)
    requires forall c :: kinds(c) ==> !Named(names, strings, c)
    ensures t.of' == []
  {
    forall x, r | x in t.leaks ensures !DescribesChain(t.after, x, r) {
      NoneNamedNoReport(t.after, t.leaks, kinds, x, r);
    }
    NothingToList(t.after, t.leaks, t.of', t.result');
  }

  // ----- a heap with a nameless class on the only short chain

  /** The objects are 1 to 6, the GC roots 1 and 6, the tracked object 5.  A field of 1
      holds 2, and elements lead from 2 to 5 and from 6 over 3 and 4 to 5.  Object 2 has
      class `k`, the others have class `n`, which is the one that was dumped. */
  ghost function ParsedHeap(names: map<Id, Id>, strings: map<Id, seq<byte>>, n: Id, k: Id): Heap {
    EMPTY_HEAP.(
      idSize := 1, classNames := names, strings := strings,
      inheritance := map[n := 0],
      instanceFields := map[n := [Field(9, Object)]],
      instanceTypes := map[n := Class][1 := Instance][2 := ObjectArray][3 := ObjectArray][4 := ObjectArray]
                       [5 := ObjectArray][6 := ObjectArray],
      instanceClasses := map[1 := n, 2 := k, 3 := n, 4 := n, 5 := n, 6 := n],
      gcRoots := [1, 6], gcRootTypes := map[1 := JniLocal, 6 := JniLocal],
      fieldsData := map[1 := FieldsData(n, [2])],
      references := Elements())
  }

  ghost function Elements(): Graph {
    var e := ElementRef(0);
    map[2 := map[5 := e], 3 := map[4 := e], 4 := map[5 := e], 6 := map[3 := e]]
  }

  /** The graph without matchers; the matcher for every field of every class takes the
      reference from 1 to 2 away. */
  ghost function WithField(): Graph {
    Elements()[1 := map[2 := FieldRef(false, 9)]]
  }

  const EVERYTHING := [FieldMatcher(None, None)]

  lemma EdgesOf(a: Id, b: Id)
    ensures Edge(Elements(), a, b) <==> (a, b) in {(2, 5), (3, 4), (4, 5), (6, 3)}
    ensures Edge(WithField(), a, b) <==> (a, b) == (1, 2) || Edge(Elements(), a, b)
    ensures Edge(Elements(), a, b) ==> Elements()[a][b] == ElementRef(0) && WithField()[a][b] == ElementRef(0)
  {}

  lemma Layout(names: map<Id, Id>, strings: map<Id, seq<byte>>, n: Id, k: Id)
    ensures LayoutOf(ParsedHeap(names, strings, n, k), 1) == [Field(9, Object)]
  {
    var h := ParsedHeap(names, strings, n, k);
    assert HprofLazy.Chain(h.inheritance, n) == [n];
    assert AllFields(h, [n]) == FieldsOf(h, n) + AllFields(h, []);
  }

  lemma OnlyField(h: Heap, ms: seq<Matcher>, a: Id, b: Id, covered: bool)
    requires h.idSize == 1 && h.fieldsData.Keys == {1} && h.fieldsData[1].data == [2] && LayoutOf(h, 1) == [Field(9, Object)]
    ensures FieldEdge(h, ms, a, b, covered) <==>
              (a, b) == (1, 2) && Covered(h.inheritance, ms, h.fieldsData[1].classId, 9) == covered
    ensures FieldEdge(h, ms, 1, 2, false) ==> LastHolds(ViewOf(h, ms, 1), LayoutOf(h, 1), 0, 2)
  {
    if a == 1 {
      var v, fs := ViewOf(h, ms, 1), LayoutOf(h, 1);
      assert Value(v.data, 0, 0) == 0 && Value(v.data, 0, 1) == 2;
      assert Offset(fs, 0, 1) == 0;
      assert Holds(v, 0, fs, 0, b, covered) <==> b == 2 && Excludes(v, fs[0]) == covered;
    }
  }

  lemma Resolved(h: Heap)
    ensures Flatten(h, []) == [] && Flatten(h, EVERYTHING) == [Matcher(0, 0)]
    ensures forall c, name :: !Covered(h.inheritance, [], c, name) && Covered(h.inheritance, [Matcher(0, 0)], c, name)
  {
    assert EVERYTHING[1..] == [] && Resolve(h, EVERYTHING[0]) == Some(Matcher(0, 0));
    forall c, name ensures Covered(h.inheritance, [Matcher(0, 0)], c, name) {
      var ms := [Matcher(0, 0)];
      assert Matches(h.inheritance, c, ms[0]);
    }
  }

  ghost function Before(names: map<Id, Id>, strings: map<Id, seq<byte>>, n: Id, k: Id): Heap {
    ParsedHeap(names, strings, n, k).(references := WithField())
  }

  ghost function After(names: map<Id, Id>, strings: map<Id, seq<byte>>, n: Id, k: Id): Heap {
    ParsedHeap(names, strings, n, k).(excluded := map[1 := map[2 := FieldRef(false, 9)]])
  }

  lemma PassBefore(names: map<Id, Id>, strings: map<Id, seq<byte>>, n: Id, k: Id)
    ensures var h := ParsedHeap(names, strings, n, k); LazyOutcome(h, Before(names, strings, n, k), Flatten(h, []), [])
  {
    var h := ParsedHeap(names, strings, n, k);
    Resolved(h);
    Layout(names, strings, n, k);
    forall a, b ensures LeftAt(h, Before(names, strings, n, k), [], [], a, b) {
      EdgesOf(a, b);
      OnlyField(h, [], a, b, false);
      OnlyField(h, [], a, b, true);
    }
  }

  lemma PassAfter(names: map<Id, Id>, strings: map<Id, seq<byte>>, n: Id, k: Id)
    ensures var h := ParsedHeap(names, strings, n, k); LazyOutcome(h, After(names, strings, n, k), Flatten(h, EVERYTHING), [])
  {
    var h := ParsedHeap(names, strings, n, k);
    Resolved(h);
    Layout(names, strings, n, k);
    forall a, b ensures LeftAt(h, After(names, strings, n, k), [Matcher(0, 0)], [], a, b) {
      EdgesOf(a, b);
      OnlyField(h, [Matcher(0, 0)], a, b, false);
      OnlyField(h, [Matcher(0, 0)], a, b, true);
    }
  }

  /** Every path to 5 without the field goes 6, 3, 4, 5. */
  lemma PathsAfter(p: seq<Id>)
    requires RootPath(Elements(), [1, 6], p, 5)
    ensures p == [6, 3, 4, 5]
  {
    var l := |p| - 1;
    PathBack(Elements(), p, l);
    if p[l - 1] == 2 {
      PathBack(Elements(), p, l - 1);
    } else {
      PathBack(Elements(), p, l - 1);
      PathBack(Elements(), p, l - 2);
      if l > 3 { PathBack(Elements(), p, l - 3); }
    }
  }

  /** With it, a path to 5 goes through 2 at the end or is at least that long. */
  lemma PathsBefore(p: seq<Id>)
    requires RootPath(WithField(), [1, 6], p, 5)
    ensures |p| >= 3 && (p[|p| - 2] == 2 || |p| >= 4)
  {
    var l := |p| - 1;
    PathBack(WithField(), p, l);
    PathBack(WithField(), p, l - 1);
  }

  /** A node of a path that is not a GC root has a predecessor. */
  lemma PathBack(g: Graph, p: seq<Id>, i: int)
    requires IsPath(g, p) && p[0] in [1, 6] && 0 <= i < |p| && (g == Elements() || g == WithField())
    ensures p[i] == 5 ==> i > 0 && (p[i - 1] == 2 || p[i - 1] == 4)
    ensures p[i] == 4 ==> i > 0 && p[i - 1] == 3
    ensures p[i] == 3 ==> i > 0 && p[i - 1] == 6
    ensures p[i] == 2 ==> i > 0 && p[i - 1] == 1 && g != Elements()
    ensures p[i] == 6 ==> i == 0
  {
    if i > 0 {
      assert StepAt(g, p, i - 1);
      EdgesOf(p[i - 1], p[i]);
    }
  }

  const SHORT_CHAIN: LeakChains.Chain := [(1, Some(FieldRef(false, 9))), (2, Some(ElementRef(0))), (5, None)]
  const LONG_CHAIN: LeakChains.Chain :=
    [(6, Some(ElementRef(0))), (3, Some(ElementRef(0))), (4, Some(ElementRef(0))), (5, None)]

  lemma ShortChainIsGood()
    ensures GoodChain(WithField(), [1, 6], 5, SHORT_CHAIN)
  {
    EdgesOf(1, 2);
    EdgesOf(2, 5);
    assert Ids(SHORT_CHAIN) == [1, 2, 5];
    forall p | RootPath(WithField(), [1, 6], p, 5) ensures |p| >= 3 { PathsBefore(p); }
    forall i ensures LinkAt(WithField(), SHORT_CHAIN, i) && StepAt(WithField(), [1, 2, 5], i) {}
  }

  lemma LongChainIsGood()
    ensures GoodChain(Elements(), [1, 6], 5, LONG_CHAIN)
  {
    EdgesOf(6, 3);
    EdgesOf(3, 4);
    EdgesOf(4, 5);
    assert Ids(LONG_CHAIN) == [6, 3, 4, 5];
    forall p | RootPath(Elements(), [1, 6], p, 5) ensures |p| >= 4 { PathsAfter(p); }
    forall i ensures LinkAt(Elements(), LONG_CHAIN, i) && StepAt(Elements(), [6, 3, 4, 5], i) {}
  }

  /** Before, every shortest chain has object 2 in front of its end. */
  lemma ChainsBefore(c: LeakChains.Chain)
    requires GoodChain(WithField(), [1, 6], 5, c)
    ensures |c| >= 2 && c[|c| - 2] == (2, Some(ElementRef(0)))
  {
    ShortChainIsGood();
    assert RootPath(WithField(), [1, 6], Ids(SHORT_CHAIN), 5);
    var p := Ids(c);
    PathsBefore(p);
    assert LinkAt(WithField(), c, |c| - 2);
    assert p[|p| - 2] == c[|c| - 2].0 && p[|p| - 1] == c[|c| - 1].0;
    EdgesOf(2, 5);
  }

  /** After, the long chain is the only one. */
  lemma ChainsAfter(c: LeakChains.Chain)
    requires GoodChain(Elements(), [1, 6], 5, c)
    ensures c == LONG_CHAIN
  {
    var p := Ids(c);
    PathsAfter(p);
    forall i | 0 <= i < |c| ensures c[i] == LONG_CHAIN[i] {
      assert LinkAt(Elements(), c, i) && p[i] == c[i].0 && (i < 3 ==> p[i + 1] == c[i + 1].0);
      EdgesOf(p[i], if i < 3 then p[i + 1] else 0);
    }
  }

  lemma NamelessIsNoReport(h: Heap, c: LeakChains.Chain, i: int, r: LeakReport)
    requires 0 <= i < |c| && ClassNameOf(h, c[i]).None?
    ensures !IsReport(h, c, r)
  {
    assert 0 < i && IsReport(h, c, r) ==> IsNode(h, c, i - 1, r.nodes[i - 1]);
  }

  lemma ClassesAre(h: Heap, names: map<Id, Id>, strings: map<Id, seq<byte>>, n: Id, k: Id, e: (Id, Option<Reference>))
    requires h == Before(names, strings, n, k) || h == After(names, strings, n, k)
    requires e.1.Some? ==> !e.1.value.kind.StaticField?
    ensures e.0 == 2 ==> ClassOf(h, e) == Some(k)
    ensures e.0 in {1, 3, 4, 5, 6} ==> ClassOf(h, e) == Some(n)
  {}

  lemma NoReportBefore(names: map<Id, Id>, strings: map<Id, seq<byte>>, n: Id, k: Id, r: LeakReport)
    requires !Named(names, strings, k)
    ensures !DescribesChain(Before(names, strings, n, k), 5, r)
  {
    var h := Before(names, strings, n, k);
    GraphsAre(names, strings, n, k);
    forall c | GoodChain(h.references, h.gcRoots, 5, c) ensures !IsReport(h, c, r) {
      ChainsBefore(c);
      NoReportOf(names, strings, n, k, c, r);
    }
  }

  lemma NoReportOf(names: map<Id, Id>, strings: map<Id, seq<byte>>, n: Id, k: Id, c: LeakChains.Chain, r: LeakReport)
    requires !Named(names, strings, k) && |c| >= 2 && c[|c| - 2] == (2, Some(ElementRef(0)))
    ensures !IsReport(Before(names, strings, n, k), c, r)
  {
    var h := Before(names, strings, n, k);
    ClassesAre(h, names, strings, n, k, c[|c| - 2]);
    NamelessIsNoReport(h, c, |c| - 2, r);
  }

  lemma GraphsAre(names: map<Id, Id>, strings: map<Id, seq<byte>>, n: Id, k: Id)
    ensures Before(names, strings, n, k).references == WithField() && Before(names, strings, n, k).gcRoots == [1, 6]
    ensures After(names, strings, n, k).references == Elements() && After(names, strings, n, k).gcRoots == [1, 6]
  {}

  lemma UnnameableBefore(names: map<Id, Id>, strings: map<Id, seq<byte>>, n: Id, k: Id)
    requires !Named(names, strings, k)
    ensures Unnameable(Before(names, strings, n, k), 5)
  {
    var h := Before(names, strings, n, k);
    ShortChainIsGood();
    ClassesAre(h, names, strings, n, k, SHORT_CHAIN[1]);
    assert GoodChain(h.references, h.gcRoots, 5, SHORT_CHAIN) && ClassNameOf(h, SHORT_CHAIN[1]).None?;
  }

  /** Nothing is listed if no tracked object has a report. */
  lemma NothingToList(h: Heap, leaks: seq<Id>, of: seq<Id>, result: seq<LeakReport>)
    requires Listed(h, leaks, of, result) && forall x, r :: x in leaks ==> !DescribesChain(h, x, r)
    ensures of == []
  {
    assert of != [] ==> Reported(h, leaks, of[0], result[0]);
  }

  /** Before, no analysis reports anything. */
  lemma NothingBefore(names: map<Id, Id>, strings: map<Id, seq<byte>>, n: Id, k: Id)
    requires !Named(names, strings, k)
    ensures forall of, result :: Analyzed(Before(names, strings, n, k), [5], of, result) ==> of == []
    ensures Analyzed(Before(names, strings, n, k), [5], [], [])
  {
    var h := Before(names, strings, n, k);
    forall r ensures !DescribesChain(h, 5, r) { NoReportBefore(names, strings, n, k, r); }
    forall of, result | Analyzed(h, [5], of, result) ensures of == [] { NothingToList(h, [5], of, result); }
    UnnameableBefore(names, strings, n, k);
    assert Settled(h, [], 5);
  }

  ghost function LongReport(name: seq<byte>): LeakReport {
    LeakReport(name, JniLocal, [ReportNode(Index(0), ArrayElement, name, ObjectArray),
                                ReportNode(Index(0), ArrayElement, name, ObjectArray),
                                ReportNode(Index(0), ArrayElement, name, ObjectArray)])
  }

  lemma LongReportFits(h: Heap, r: LeakReport)
    requires r == LongReport(r.rootClass) && forall i :: 0 <= i < 4 ==> ClassNameOf(h, LONG_CHAIN[i]) == Some(r.rootClass)
    requires 6 in h.gcRootTypes && h.gcRootTypes[6] == JniLocal
    requires 3 in h.instanceTypes && 4 in h.instanceTypes && 5 in h.instanceTypes
    requires h.instanceTypes[3] == h.instanceTypes[4] == h.instanceTypes[5] == ObjectArray
    ensures IsReport(h, LONG_CHAIN, r)
  {
    forall i | 0 <= i < |r.nodes| ensures IsNode(h, LONG_CHAIN, i, r.nodes[i]) {
      assert LONG_CHAIN[i].1 == Some(ElementRef(0));
    }
  }

  lemma LongChainNames(names: map<Id, Id>, strings: map<Id, seq<byte>>, n: Id, k: Id)
    ensures forall i :: 0 <= i < 4 ==>
              ClassNameOf(After(names, strings, n, k), LONG_CHAIN[i]) == NameOf(names, strings, Some(n))
  {
    forall i | 0 <= i < 4 ensures ClassOf(After(names, strings, n, k), LONG_CHAIN[i]) == Some(n) {
      ClassesAre(After(names, strings, n, k), names, strings, n, k, LONG_CHAIN[i]);
    }
  }

  lemma LongReportIsRight(names: map<Id, Id>, strings: map<Id, seq<byte>>, n: Id, k: Id)
    requires Named(names, strings, n)
    ensures Reported(After(names, strings, n, k), [5], 5, LongReport(NameOf(names, strings, Some(n)).value))
    ensures forall i :: 0 <= i < 4 ==> ClassNameOf(After(names, strings, n, k), LONG_CHAIN[i]).Some?
  {
    var h, r := After(names, strings, n, k), LongReport(NameOf(names, strings, Some(n)).value);
    GraphsAre(names, strings, n, k);
    LongChainIsGood();
    ChainDistance(h.references, h.gcRoots, 5, LONG_CHAIN);
    LongChainNames(names, strings, n, k);
    LongReportFits(h, r);
  }

  /** After, every analysis reports the tracked object. */
  lemma LeakAfter(names: map<Id, Id>, strings: map<Id, seq<byte>>, n: Id, k: Id)
    requires Named(names, strings, n)
    ensures forall of, result :: Analyzed(After(names, strings, n, k), [5], of, result) ==> 5 in of
    ensures Analyzed(After(names, strings, n, k), [5], [5], [LongReport(NameOf(names, strings, Some(n)).value)])
  {
    var h := After(names, strings, n, k);
    GraphsAre(names, strings, n, k);
    LongReportIsRight(names, strings, n, k);
    LongChainIsGood();
    assert RootPath(h.references, h.gcRoots, Ids(LONG_CHAIN), 5);
    assert ReachableFrom(h.references, h.gcRoots, 5);
    assert !Unnameable(h, 5) by {
      forall c | GoodChain(h.references, h.gcRoots, 5, c) ensures c == LONG_CHAIN { ChainsAfter(c); }
    }
    forall of, result | Analyzed(h, [5], of, result) ensures 5 in of {
      assert Settled(h, of, 5);
    }
    assert Settled(h, [5], 5);
  }

  lemma WitnessUses(names: map<Id, Id>, strings: map<Id, seq<byte>>, n: Id, k: Id, kinds: Id -> bool)
    requires kinds(n) && kinds(k)
    ensures Uses(Before(names, strings, n, k), [5], kinds) && Uses(After(names, strings, n, k), [5], kinds)
  {
    var h, h' := Before(names, strings, n, k), After(names, strings, n, k);
    forall a, b
      ensures Edge(h.references, a, b) ==> Allowed(kinds, ClassOf(h, (a, Some(h.references[a][b]))))
      ensures Edge(h'.references, a, b) ==> Allowed(kinds, ClassOf(h', (a, Some(h'.references[a][b]))))
    {
      EdgesOf(a, b);
      if Edge(h.references, a, b) { ClassesAre(h, names, strings, n, k, (a, Some(h.references[a][b]))); }
      if Edge(h'.references, a, b) { ClassesAre(h', names, strings, n, k, (a, Some(h'.references[a][b]))); }
    }
    ClassesAre(h, names, strings, n, k, (5, None));
    ClassesAre(h', names, strings, n, k, (5, None));
  }

  /** The heap above analysed with no matcher and with the one for everything. */
  ghost function Witness(names: map<Id, Id>, strings: map<Id, seq<byte>>, n: Id, k: Id): Comparison
    requires Named(names, strings, n)
  {
    Comparison(ParsedHeap(names, strings, n, k), [], [5],
               [], Before(names, strings, n, k), [], [],
               EVERYTHING, After(names, strings, n, k), [5], [LongReport(NameOf(names, strings, Some(n)).value)])
  }

  lemma WitnessBuilt(names: map<Id, Id>, strings: map<Id, seq<byte>>, n: Id, k: Id)
    ensures WellBuilt(ParsedHeap(names, strings, n, k))
  {
    forall a, b | Edge(Elements(), a, b) ensures a in {1, 2, 3, 4, 5, 6} { EdgesOf(a, b); }
  }

  /** Excluding a field can add a report: if the class of object 2 has no name and that of
      the others has one, object 5 is never reported without a matcher and always with one. */
  lemma ExclusionCanAddReports(names: map<Id, Id>, strings: map<Id, seq<byte>>, n: Id, k: Id)
    requires Named(names, strings, n) && !Named(names, strings, k)
    ensures Compared(Witness(names, strings, n, k)) && !OnlyOld(Witness(names, strings, n, k))
    ensures forall of, result :: Analyzed(Before(names, strings, n, k), [5], of, result) ==> 5 !in of
    ensures forall of, result :: Analyzed(After(names, strings, n, k), [5], of, result) ==> 5 in of
  {
    WitnessBuilt(names, strings, n, k);
    PassBefore(names, strings, n, k);
    PassAfter(names, strings, n, k);
    NothingBefore(names, strings, n, k);
    LeakAfter(names, strings, n, k);
  }

  /** Adding instance-field matchers never adds a report, whatever heap the parser built,
      if and only if the classes that can stand on chains all have names, or none has. */
  lemma ReportsOnlyShrinkIffNamed(names: map<Id, Id>, strings: map<Id, seq<byte>>, kinds: Id -> bool)
    ensures ReportsOnlyShrink(names, strings, kinds) <==>
              || (forall c :: kinds(c) ==> Named(names, strings, c))
              || (forall c :: kinds(c) ==> !Named(names, strings, c))
  {
    if (forall c :: kinds(c) ==> Named(names, strings, c)) || (forall c :: kinds(c) ==> !Named(names, strings, c)) {
      forall t: Comparison | Compared(t) && Within(t, names, strings, kinds) ensures OnlyOld(t) {
        if forall c :: kinds(c) ==> Named(names, strings, c) {
          AllNamedShrinks(t, names, strings, kinds);
        } else {
          NoneNamedShrinks(t, names, strings, kinds);
        }
      }
    } else {
      var k :| kinds(k) && !Named(names, strings, k);
      var n :| kinds(n) && Named(names, strings, n);
      ExclusionCanAddReports(names, strings, n, k);
      WitnessUses(names, strings, n, k, kinds);
      assert Within(Witness(names, strings, n, k), names, strings, kinds);
    }
  }
}
