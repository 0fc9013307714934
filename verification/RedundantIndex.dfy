/** Grouping the indexes of a table so that each group keeps one index and can drop
    the others (`redundant_index_checker.cc`).
 */
module RedundantIndex {

  /** `columns` are the column numbers of the index elements, in order. */
  datatype IndexInfo = IndexInfo(number: int, name: string, columns: seq<int>)

  /** A group: the index to keep, the flag that fixes it, and the redundant ones. */
  datatype Group = Group(main: IndexInfo, locked: bool, redundant: seq<IndexInfo>)

  predicate IsAuto(x: IndexInfo) {
    "sqlite_autoindex_" <= x.name
  }

  predicate Fits(x: IndexInfo, main: IndexInfo) {
    x.columns <= main.columns
  }

  /** `SortIndex`: longer indexes first, then larger numbers. */
  predicate SortIndex(a: IndexInfo, b: IndexInfo) {
    if |a.columns| != |b.columns| then |a.columns| > |b.columns| else a.number > b.number
  }

  /** What `std::sort` with `SortIndex` may leave. */
  ghost predicate Sorted(xs: seq<IndexInfo>) {
    forall i, j :: 0 <= i < j < |xs| ==> !SortIndex(xs[j], xs[i])
  }

  /** The comparison is one that sorting allows. */
  lemma SortIndexOrders(a: IndexInfo, b: IndexInfo, c: IndexInfo)
    ensures !SortIndex(a, a)
    ensures SortIndex(a, b) && SortIndex(b, c) ==> SortIndex(a, c)
    ensures !SortIndex(a, b) && !SortIndex(b, c) ==> !SortIndex(a, c)
  {}

  /** Sorted means that an earlier index is longer, or as long with no smaller number. */
  ghost predicate Before(a: IndexInfo, b: IndexInfo) {
    |a.columns| > |b.columns| || (|a.columns| == |b.columns| && a.number >= b.number)
  }

  lemma SortedMeans(xs: seq<IndexInfo>)
    ensures Sorted(xs) <==> forall i, j :: 0 <= i < j < |xs| ==> Before(xs[i], xs[j])
  {
    if Sorted(xs) {
      forall i, j | 0 <= i < j < |xs| ensures Before(xs[i], xs[j]) {
        assert !SortIndex(xs[j], xs[i]);
      }
    }
    if forall i, j :: 0 <= i < j < |xs| ==> Before(xs[i], xs[j]) {
      forall i, j | 0 <= i < j < |xs| ensures !SortIndex(xs[j], xs[i]) {
        assert Before(xs[i], xs[j]);
      }
    }
  }

  // ----- one group

  /** A candidate that fits joins the group; among equals an automatic index takes
      over as the main one, and from then on the main one is fixed. */
  function Join(g: Group, x: IndexInfo): Group {
    if x.columns != g.main.columns || g.locked then g.(redundant := g.redundant + [x])
    else if IsAuto(g.main) then g.(redundant := g.redundant + [x], locked := true)
    else if IsAuto(x) then Group(x, true, g.redundant + [g.main])
    else g.(redundant := g.redundant + [x])
  }

  class RedundantIndexGroup {
    var main: IndexInfo
    var locked: bool
    var redundant: seq<IndexInfo>

    /** `main_index_lock_` is not initialised by the source: it starts as `junk`. */
    constructor (m: IndexInfo, junk: bool)
      ensures Value() == Group(m, junk, [])
    {
      main, locked, redundant := m, junk, [];
    }

    function Value(): Group
      reads this
    {
      Group(main, locked, redundant)
    }

    method Try2AddToGroup(x: IndexInfo) returns (added: bool)
      modifies this
      ensures added == Fits(x, old(main))
      ensures Value() == if added then Join(old(Value()), x) else old(Value())
    {
      if |x.columns| > |main.columns| {
        return false;
      }
      var i := 0;
      while i < |x.columns|
        invariant 0 <= i <= |x.columns| && x.columns[..i] == main.columns[..i]
      {
        if x.columns[i] != main.columns[i] {
          break;
        }
        i := i + 1;
      }
      if i == |main.columns| {
        assert x.columns == x.columns[..i] && main.columns == main.columns[..i];
        if locked {
          redundant := redundant + [x];
        } else if IsAuto(main) {
          redundant, locked := redundant + [x], true;
        } else if IsAuto(x) {
          redundant := redundant + [main];
          main, locked := x, true;
        } else {
          redundant := redundant + [x];
        }
        return true;
      } else if i == |x.columns| {
        redundant := redundant + [x];
        return true;
      }
      return false;
    }
  }

  // ----- all groups

  /** One round: what joins the group of the first index, and what is left over. */
  function Collect(g: Group, xs: seq<IndexInfo>): (Group, seq<IndexInfo>)
    decreases |xs|
  {
    if xs == [] then (g, [])
    else if Fits(xs[0], g.main) then Collect(Join(g, xs[0]), xs[1..])
    else var r := Collect(g, xs[1..]); (r.0, [xs[0]] + r.1)
  }

  lemma {:induction false} CollectShrinks(g: Group, xs: seq<IndexInfo>)
    ensures |Collect(g, xs).1| <= |xs|
    decreases |xs|
  {
    if xs != [] {
      if Fits(xs[0], g.main) { CollectShrinks(Join(g, xs[0]), xs[1..]); } else { CollectShrinks(g, xs[1..]); }
    }
  }

  /** All rounds; `junk(k)` is the lock that the group of round `k` starts with. */
  function Groups(xs: seq<IndexInfo>, junk: nat -> bool, k: nat): seq<Group>
    decreases |xs|
  {
    if xs == [] then []
    else
      var r := Collect(Group(xs[0], junk(k), []), xs[1..]);
      CollectShrinks(Group(xs[0], junk(k), []), xs[1..]);
      [r.0] + Groups(r.1, junk, k + 1)
  }

  method MakeDistinctGroup(xs: seq<IndexInfo>, groups: seq<Group>, junk: nat -> bool) returns (r: seq<Group>)
    ensures r == groups + Groups(xs, junk, |groups|)
    decreases |xs|
  {
    if xs == [] {
      return groups;
    }
    var group := new RedundantIndexGroup(xs[0], junk(|groups|));
    var rest := FillGroup(group, xs);
    CollectShrinks(Group(xs[0], junk(|groups|), []), xs[1..]);
    r := MakeDistinctGroup(rest, groups + [group.Value()], junk);
  }

  /** The loop over the other indexes: those that do not join are left for later rounds. */
  method FillGroup(group: RedundantIndexGroup, xs: seq<IndexInfo>) returns (rest: seq<IndexInfo>)
    requires xs != []
    modifies group
    ensures (group.Value(), rest) == Collect(old(group.Value()), xs[1..])
  {
    rest := [];
    ghost var tail := xs[1..];
    ghost var goal := Collect(group.Value(), tail);
    assert tail[0..] == tail;
    for i := 1 to |xs|
      invariant rest + Collect(group.Value(), tail[i - 1..]).1 == goal.1
      invariant Collect(group.Value(), tail[i - 1..]).0 == goal.0
    {
      assert tail[i - 1..][0] == xs[i] && tail[i - 1..][1..] == tail[i..];
      var added := group.Try2AddToGroup(xs[i]);
      if !added {
        rest := rest + [xs[i]];
      }
    }
    assert tail[|xs| - 1..] == [] && rest + [] == rest;
  }

  // ----- what grouping promises

  ghost function Members(g: Group): multiset<IndexInfo> {
    multiset(g.redundant) + multiset{g.main}
  }

  ghost function AllMembers(gs: seq<Group>): multiset<IndexInfo> {
    if gs == [] then multiset{} else Members(gs[0]) + AllMembers(gs[1..])
  }

  /** Every redundant index is a column prefix of the one that is kept. */
  ghost predicate AllFit(g: Group) {
    forall x :: x in g.redundant ==> Fits(x, g.main)
  }

  /** If any index with the columns of the main one is automatic, the main one is. */
  ghost predicate AutoWins(g: Group) {
    forall x :: x in g.redundant && x.columns == g.main.columns && IsAuto(x) ==> IsAuto(g.main)
  }

  ghost predicate PrefersAuto(g: Group) {
    (g.locked ==> IsAuto(g.main)) && AutoWins(g)
  }

  lemma JoinKeeps(g: Group, x: IndexInfo)
    requires Fits(x, g.main) && AllFit(g)
    ensures var g' := Join(g, x);
            && Members(g') == Members(g) + multiset{x} && g'.main.columns == g.main.columns && AllFit(g')
            && (PrefersAuto(g) ==> PrefersAuto(g'))
  {}

  lemma AddToBoth<T>(a: multiset<T>, b: multiset<T>, c: multiset<T>, d: multiset<T>, x: multiset<T>)
    requires a + b == c + d
    ensures a + (x + b) == c + (x + d)
  {
    assert a + (x + b) == (a + b) + x && c + (x + d) == (c + d) + x;
  }

  /** One round keeps every index, either in the group or in the rest, and the rest
      does not fit the group. */
  lemma {:induction false} CollectKeeps(g: Group, xs: seq<IndexInfo>)
    requires AllFit(g)
    ensures var (g', r) := Collect(g, xs);
            && Members(g') + multiset(r) == Members(g) + multiset(xs)
            && g'.main.columns == g.main.columns && AllFit(g')
            && (PrefersAuto(g) ==> PrefersAuto(g'))
    decreases |xs|
  {
    if xs != [] {
      assert xs == [xs[0]] + xs[1..];
      if Fits(xs[0], g.main) {
        JoinKeeps(g, xs[0]);
        CollectKeeps(Join(g, xs[0]), xs[1..]);
      } else {
        CollectKeeps(g, xs[1..]);
        var (g', r) := Collect(g, xs[1..]);
        assert Collect(g, xs) == (g', [xs[0]] + r);
        assert multiset([xs[0]] + r) == multiset{xs[0]} + multiset(r);
        AddToBoth(Members(g'), multiset(r), Members(g), multiset(xs[1..]), multiset{xs[0]});
      }
    }
  }

  lemma {:induction false} CollectRest(g: Group, xs: seq<IndexInfo>)
    requires AllFit(g)
    ensures forall x :: x in Collect(g, xs).1 ==> x in xs && !(x.columns <= g.main.columns)
    ensures Sorted(xs) ==> Sorted(Collect(g, xs).1)
    decreases |xs|
  {
    if xs != [] {
      var tail := xs[1..];
      assert forall x :: x in tail ==> x in xs;
      if Fits(xs[0], g.main) {
        JoinKeeps(g, xs[0]);
        CollectRest(Join(g, xs[0]), tail);
      } else {
        CollectRest(g, tail);
        if Sorted(xs) {
          var r := Collect(g, tail).1;
          assert forall j :: 0 <= j < |r| ==> r[j] in tail && !SortIndex(r[j], xs[0]);
        }
      }
    }
  }

  ghost predicate Incomparable(a: IndexInfo, b: IndexInfo) {
    !Fits(a, b) && !Fits(b, a)
  }

  ghost predicate ColumnsIn(xs: seq<IndexInfo>, columns: seq<int>) {
    exists x :: x in xs && x.columns == columns
  }

  /** Every main index has the columns of some index of the input. */
  lemma {:induction false} MainsComeFrom(xs: seq<IndexInfo>, junk: nat -> bool, k: nat)
    ensures forall i :: 0 <= i < |Groups(xs, junk, k)| ==> ColumnsIn(xs, Groups(xs, junk, k)[i].main.columns)
    decreases |xs|
  {
    if xs != [] {
      var g := Group(xs[0], junk(k), []);
      var r := Collect(g, xs[1..]);
      CollectShrinks(g, xs[1..]);
      CollectKeeps(g, xs[1..]);
      CollectRest(g, xs[1..]);
      MainsComeFrom(r.1, junk, k + 1);
      var gs, all := Groups(r.1, junk, k + 1), Groups(xs, junk, k);
      assert all == [r.0] + gs;
      forall i | 0 <= i < |all| ensures ColumnsIn(xs, all[i].main.columns) {
        if i == 0 {
          assert xs[0] in xs && xs[0].columns == all[0].main.columns;
        } else {
          assert ColumnsIn(r.1, gs[i - 1].main.columns);
          var x :| x in r.1 && x.columns == gs[i - 1].main.columns;
          assert x in xs[1..];
          assert x in xs;
        }
      }
    }
  }

  /** What is left over after a round is no longer than the group's main index, so
      neither fits the other. */
  lemma LeftOverIncomparable(xs: seq<IndexInfo>, x: IndexInfo, first: IndexInfo)
    requires xs != [] && Sorted(xs) && x in xs[1..]
    requires first.columns == xs[0].columns && !(x.columns <= first.columns)
    ensures |x.columns| <= |first.columns| && !(first.columns <= x.columns)
  {
    var p :| 0 <= p < |xs[1..]| && xs[1..][p] == x;
    assert !SortIndex(xs[p + 1], xs[0]);
  }

  lemma {:induction false} MainsIncomparable(xs: seq<IndexInfo>, junk: nat -> bool, k: nat)
    requires Sorted(xs)
    ensures forall i, j :: 0 <= i < j < |Groups(xs, junk, k)| ==>
              Incomparable(Groups(xs, junk, k)[i].main, Groups(xs, junk, k)[j].main)
    decreases |xs|
  {
    if xs != [] {
      var g := Group(xs[0], junk(k), []);
      var r := Collect(g, xs[1..]);
      CollectShrinks(g, xs[1..]);
      CollectKeeps(g, xs[1..]);
      CollectRest(g, xs[1..]);
      MainsIncomparable(r.1, junk, k + 1);
      MainsComeFrom(r.1, junk, k + 1);
      var gs := Groups(r.1, junk, k + 1);
      assert Groups(xs, junk, k) == [r.0] + gs;
      forall j | 0 <= j < |gs| ensures Incomparable(r.0.main, gs[j].main) {
        assert ColumnsIn(r.1, gs[j].main.columns);
        var x :| x in r.1 && x.columns == gs[j].main.columns;
        LeftOverIncomparable(xs, x, r.0.main);
      }
    }
  }

  lemma MembersFirst(g: Group, gs: seq<Group>)
    ensures AllMembers([g] + gs) == Members(g) + AllMembers(gs)
  {
    assert ([g] + gs)[1..] == gs;
  }

  lemma FirstAndRest(xs: seq<IndexInfo>)
    requires xs != []
    ensures multiset(xs) == multiset{xs[0]} + multiset(xs[1..])
  {
    assert xs == [xs[0]] + xs[1..];
  }

  /** The groups partition the input, and in each group the redundant indexes are
      column prefixes of the main one. */
  lemma {:induction false} GroupsPartition(xs: seq<IndexInfo>, junk: nat -> bool, k: nat)
    ensures AllMembers(Groups(xs, junk, k)) == multiset(xs)
    ensures forall i :: 0 <= i < |Groups(xs, junk, k)| ==> AllFit(Groups(xs, junk, k)[i])
    decreases |xs|
  {
    if xs != [] {
      var g := Group(xs[0], junk(k), []);
      var r := Collect(g, xs[1..]);
      CollectShrinks(g, xs[1..]);
      CollectKeeps(g, xs[1..]);
      GroupsPartition(r.1, junk, k + 1);
      MembersFirst(r.0, Groups(r.1, junk, k + 1));
      FirstAndRest(xs);
    }
  }

  /** A locked group keeps its main index and takes every candidate that fits. */
  lemma {:induction false} LockedCollect(g: Group, xs: seq<IndexInfo>)
    requires g.locked
    ensures var g' := Collect(g, xs).0;
            && g'.main == g.main
            && forall x :: x in g'.redundant <==> x in g.redundant || (x in xs && Fits(x, g.main))
    decreases |xs|
  {
    if xs != [] {
      assert xs == [xs[0]] + xs[1..];
      if Fits(xs[0], g.main) {
        LockedCollect(Join(g, xs[0]), xs[1..]);
      } else {
        LockedCollect(g, xs[1..]);
      }
    }
  }

  /** What a group that starts with main index `m` and lock `l` makes of the candidates
      `xs`: automatic indexes win if and only if the lock does not start set, or there
      is nothing to win. */
  lemma AutoWinsIffUnlocked(m: IndexInfo, l: bool, xs: seq<IndexInfo>)
    ensures AutoWins(Collect(Group(m, l, []), xs).0) <==>
              !l || IsAuto(m) || forall x :: x in xs && x.columns == m.columns ==> !IsAuto(x)
  {
    var g := Group(m, l, []);
    if l {
      LockedCollect(g, xs);
      assert forall x: IndexInfo :: x.columns == m.columns ==> Fits(x, m);
    } else {
      CollectKeeps(g, xs);
    }
  }

  /** With the lock set from the start an automatic index loses against an equal one. */
  lemma AutoCanLose() returns (m: IndexInfo, x: IndexInfo, g: Group)
    ensures !IsAuto(m) && IsAuto(x) && x.columns == m.columns && Sorted([m, x])
    ensures Groups([m, x], k => true, 0) == [g] && g.main == m && !AutoWins(g)
  {
    m, x := IndexInfo(2, "i", [0]), IndexInfo(1, "sqlite_autoindex_t_1", [0]);
    g := Group(m, true, [x]);
    var xs := [m, x];
    assert xs[1..] == [x] && [x][1..] == [];
    assert Join(Group(m, true, []), x) == g && Collect(g, []) == (g, []);
    assert Collect(Group(m, true, []), [x]) == Collect(g, []);
    assert x in g.redundant;
  }

  /** Every group whose lock does not start set prefers an automatic index. */
  lemma {:induction false} GroupsPreferAuto(xs: seq<IndexInfo>, junk: nat -> bool, k: nat)
    ensures forall i :: 0 <= i < |Groups(xs, junk, k)| && !junk(k + i) ==> PrefersAuto(Groups(xs, junk, k)[i])
    decreases |xs|
  {
    if xs != [] {
      var g := Group(xs[0], junk(k), []);
      var rest := Collect(g, xs[1..]).1;
      CollectShrinks(g, xs[1..]);
      CollectKeeps(g, xs[1..]);
      GroupsPreferAuto(rest, junk, k + 1);
      var gs := Groups(xs, junk, k);
      forall i | 0 <= i < |gs| && !junk(k + i) ensures PrefersAuto(gs[i]) {
        if i > 0 { assert gs[i] == Groups(rest, junk, k + 1)[i - 1] && k + i == (k + 1) + (i - 1); }
      }
    }
  }

  /** Among the indexes of a group with the same columns as the one that is kept, the
      kept one has the highest number. */
  ghost predicate KeepsHighest(g: Group) {
    forall x :: x in g.redundant && x.columns == g.main.columns ==> x.number <= g.main.number
  }

  /** A main index that no automatic index replaced is the first one of the group. */
  lemma {:induction false} MainStays(g: Group, xs: seq<IndexInfo>)
    ensures var g' := Collect(g, xs).0;
            && (g.locked || !IsAuto(g'.main) || IsAuto(g.main) ==> g'.main == g.main)
            && forall x :: x in g'.redundant ==> x in g.redundant || x in xs || x == g.main
    decreases |xs|
  {
    if xs != [] {
      assert xs == [xs[0]] + xs[1..];
      if Fits(xs[0], g.main) {
        MainStays(Join(g, xs[0]), xs[1..]);
      } else {
        MainStays(g, xs[1..]);
      }
    }
  }

  lemma FirstIsHighest(xs: seq<IndexInfo>, x: IndexInfo)
    requires xs != [] && Sorted(xs) && x in xs && x.columns == xs[0].columns
    ensures x.number <= xs[0].number
  {
    var p :| 0 <= p < |xs| && xs[p] == x;
    if p > 0 { assert !SortIndex(xs[p], xs[0]); }
  }

  /** Ties go to the highest number: in every group of sorted indexes, unless an automatic
      index has been preferred. */
  lemma {:induction false} TiesGoToHighestNumber(xs: seq<IndexInfo>, junk: nat -> bool, k: nat)
    requires Sorted(xs)
    ensures forall i :: 0 <= i < |Groups(xs, junk, k)| && (junk(k + i) || !IsAuto(Groups(xs, junk, k)[i].main)) ==>
              KeepsHighest(Groups(xs, junk, k)[i])
    decreases |xs|
  {
    if xs != [] {
      var g := Group(xs[0], junk(k), []);
      var r := Collect(g, xs[1..]);
      CollectShrinks(g, xs[1..]);
      CollectRest(g, xs[1..]);
      TiesGoToHighestNumber(r.1, junk, k + 1);
      var gs := Groups(xs, junk, k);
      forall i | 0 <= i < |gs| && (junk(k + i) || !IsAuto(gs[i].main)) ensures KeepsHighest(gs[i]) {
        if i > 0 {
          assert gs[i] == Groups(r.1, junk, k + 1)[i - 1] && k + i == (k + 1) + (i - 1);
        } else {
          FirstGroupKeepsHighest(xs, junk(k));
        }
      }
    }
  }

  lemma FirstGroupKeepsHighest(xs: seq<IndexInfo>, l: bool)
    requires xs != [] && Sorted(xs)
    ensures var g := Collect(Group(xs[0], l, []), xs[1..]).0; l || !IsAuto(g.main) ==> KeepsHighest(g)
  {
    var g := Collect(Group(xs[0], l, []), xs[1..]).0;
    MainStays(Group(xs[0], l, []), xs[1..]);
    if l || !IsAuto(g.main) {
      forall x | x in g.redundant && x.columns == g.main.columns ensures x.number <= g.main.number {
        assert x in xs;
        FirstIsHighest(xs, x);
      }
    }
  }

  // ----- the groups are as few as possible

  ghost predicate Prefix(a: seq<int>, b: seq<int>) {
    a <= b
  }

  ghost function Columns(xs: seq<IndexInfo>): set<seq<int>> {
    set i | 0 <= i < |xs| :: xs[i].columns
  }

  ghost function MainColumns(gs: seq<Group>): set<seq<int>> {
    set i | 0 <= i < |gs| :: gs[i].main.columns
  }

  ghost predicate Served(keep: set<seq<int>>, columns: seq<int>) {
    exists c :: c in keep && Prefix(columns, c)
  }

  /** Keeping `keep` makes every index with columns in `all` redundant. */
  ghost predicate Serves(keep: set<seq<int>>, all: set<seq<int>>) {
    forall c :: c in all ==> Served(keep, c)
  }

  ghost predicate Antichain(keep: set<seq<int>>) {
    forall c, d :: c in keep && d in keep && Prefix(c, d) ==> c == d
  }

  lemma LeastMember(mains: set<seq<int>>, keep: set<seq<int>>, all: set<seq<int>>, m: seq<int>)
    requires m in mains && Antichain(mains) && m in all && keep <= all
    requires Serves(mains, all) && Serves(keep, all)
    ensures m in keep
  {
    assert Served(keep, m);
    var c :| c in keep && Prefix(m, c);
    assert c in all;
    assert Served(mains, c);
    var m' :| m' in mains && Prefix(c, m');
    PrefixOrder(m, c, m');
  }

  /** An antichain that serves everything is part of every set that does. */
  lemma AntichainIsLeast(mains: set<seq<int>>, keep: set<seq<int>>, all: set<seq<int>>)
    requires Antichain(mains) && mains <= all && Serves(mains, all)
    requires keep <= all && Serves(keep, all)
    ensures mains <= keep && |mains| <= |keep|
  {
    forall m | m in mains ensures m in keep {
      LeastMember(mains, keep, all, m);
    }
    SubsetSize(mains, keep);
  }

  lemma PrefixOrder(a: seq<int>, b: seq<int>, c: seq<int>)
    requires Prefix(a, b) && Prefix(b, c)
    ensures Prefix(a, c) && (a == c ==> a == b)
  {}

  lemma SubsetSize<T>(a: set<T>, b: set<T>)
    requires a <= b
    ensures |a| <= |b|
  {
    assert b == a + (b - a);
  }

  lemma FitsMain(g: Group, x: IndexInfo)
    requires x in Members(g) && AllFit(g)
    ensures Prefix(x.columns, g.main.columns)
  {
    assert x == g.main || x in g.redundant;
  }

  lemma {:induction false} MemberOfSome(gs: seq<Group>, x: IndexInfo)
    requires x in AllMembers(gs) && forall i :: 0 <= i < |gs| ==> AllFit(gs[i])
    ensures Served(MainColumns(gs), x.columns)
  {
    var c := gs[0].main.columns;
    if x in Members(gs[0]) {
      FitsMain(gs[0], x);
      assert c in MainColumns(gs);
    } else {
      var rest := gs[1..];
      MemberOfSome(rest, x);
      assert MainColumns(rest) <= MainColumns(gs) by {
        assert forall i :: 0 <= i < |rest| ==> rest[i] == gs[i + 1];
      }
    }
  }

  lemma {:induction false} DistinctMains(gs: seq<Group>)
    requires forall i, j :: 0 <= i < j < |gs| ==> Incomparable(gs[i].main, gs[j].main)
    ensures |MainColumns(gs)| == |gs|
  {
    if gs != [] {
      var n := |gs| - 1;
      DistinctMains(gs[..n]);
      assert forall i :: 0 <= i < n ==> gs[..n][i] == gs[i];
      assert MainColumns(gs) == MainColumns(gs[..n]) + {gs[n].main.columns};
      assert gs[n].main.columns !in MainColumns(gs[..n]);
    }
  }

  lemma MainsAntichain(gs: seq<Group>)
    requires forall i, j :: 0 <= i < j < |gs| ==> Incomparable(gs[i].main, gs[j].main)
    ensures Antichain(MainColumns(gs))
  {
    forall c, d | c in MainColumns(gs) && d in MainColumns(gs) && Prefix(c, d) ensures c == d {
      var i :| 0 <= i < |gs| && gs[i].main.columns == c;
      var j :| 0 <= j < |gs| && gs[j].main.columns == d;
      assert i == j by {
        assert Fits(gs[i].main, gs[j].main);
      }
    }
  }

  lemma SameColumns(xs: seq<IndexInfo>, ys: seq<IndexInfo>)
    requires multiset(xs) == multiset(ys)
    ensures Columns(xs) <= Columns(ys)
  {
    forall i | 0 <= i < |xs| ensures xs[i].columns in Columns(ys) {
      assert xs[i] in multiset(xs);
      assert xs[i] in ys;
    }
  }

  lemma MainsServe(xs: seq<IndexInfo>, gs: seq<Group>)
    requires AllMembers(gs) == multiset(xs) && forall i :: 0 <= i < |gs| ==> AllFit(gs[i])
    ensures Serves(MainColumns(gs), Columns(xs))
  {
    forall i | 0 <= i < |xs| ensures Served(MainColumns(gs), xs[i].columns) {
      assert xs[i] in multiset(xs);
      MemberOfSome(gs, xs[i]);
    }
  }

  lemma MainsFrom(xs: seq<IndexInfo>, gs: seq<Group>)
    requires forall i :: 0 <= i < |gs| ==> ColumnsIn(xs, gs[i].main.columns)
    ensures MainColumns(gs) <= Columns(xs)
  {
    forall i | 0 <= i < |gs| ensures gs[i].main.columns in Columns(xs) {
      assert ColumnsIn(xs, gs[i].main.columns);
    }
  }

  /** Sorting in any way that `SortIndex` allows and then grouping partitions the
      indexes, keeps for each group an index that the others are prefixes of, and
      keeps as few as any choice among the given indexes that makes the rest redundant. */
  lemma KeptIndexesAreFewest(input: seq<IndexInfo>, xs: seq<IndexInfo>, junk: nat -> bool, keep: set<seq<int>>)
    requires multiset(xs) == multiset(input) && Sorted(xs)
    requires keep <= Columns(input) && Serves(keep, Columns(input))
    ensures AllMembers(Groups(xs, junk, 0)) == multiset(input)
    ensures Serves(MainColumns(Groups(xs, junk, 0)), Columns(input))
    ensures MainColumns(Groups(xs, junk, 0)) <= keep
    ensures |Groups(xs, junk, 0)| <= |keep|
  {
    var gs := Groups(xs, junk, 0);
    GroupsPartition(xs, junk, 0);
    MainsIncomparable(xs, junk, 0);
    MainsComeFrom(xs, junk, 0);
    SameColumns(xs, input);
    SameColumns(input, xs);
    MainsServe(xs, gs);
    MainsFrom(xs, gs);
    MainsAntichain(gs);
    DistinctMains(gs);
    AntichainIsLeast(MainColumns(gs), keep, Columns(input));
  }
}
