/** Finding statements that are executed over and over without being prepared
    (`prepared_statement_better_checker.cc`).
 */
module ContinuousScan {

  /** A statement of the history; `time` is its execution time in milliseconds. */
  datatype SqlInfo = SqlInfo(sql: string, wildcard: string, prepared: bool, time: int)

  /** `kContinuityInternalThreshold`, `kContinuousCountThreshold` and `GetSqlCntToSample`. */
  const INTERVAL: int := 100
  const COUNT: int := 3
  const SAMPLE: int := 30

  /** A 64-bit difference stored in an `int`. */
  function Int32(x: int): int {
    (x + 0x8000_0000) % 0x1_0000_0000 - 0x8000_0000
  }

  // ----- runs of executions

  /** The gap before `i` is short; `narrow` says whether it is first cut to 32 bits. */
  ghost predicate Joined(narrow: bool, ts: seq<SqlInfo>, i: int)
    requires 0 < i < |ts|
  {
    var gap := ts[i].time - ts[i - 1].time;
    (if narrow then Int32(gap) else gap) < INTERVAL
  }

  /** Three executions in a row, from `a` on. */
  ghost predicate Triple(narrow: bool, ts: seq<SqlInfo>, a: int) {
    0 <= a && a + 2 < |ts| && Joined(narrow, ts, a + 1) && Joined(narrow, ts, a + 2)
  }

  ghost predicate MaximalRun(narrow: bool, ts: seq<SqlInfo>, st: int, end: int) {
    && 0 <= st < end <= |ts|
    && (forall i :: st < i < end ==> Joined(narrow, ts, i))
    && (st > 0 ==> !Joined(narrow, ts, st))
    && (end < |ts| ==> !Joined(narrow, ts, end))
  }

  ghost predicate SectionAt(narrow: bool, ts: seq<SqlInfo>, section: seq<SqlInfo>, st: int, end: int) {
    && MaximalRun(narrow, ts, st, end) && end - st >= COUNT && section == ts[st..end]
    && forall a :: a < st ==> !Triple(narrow, ts, a)
  }

  /** `section` is the earliest maximal run of at least three executions, or empty if
      there is none. */
  ghost predicate EarliestSection(narrow: bool, ts: seq<SqlInfo>, section: seq<SqlInfo>) {
    if section == [] then forall a :: !Triple(narrow, ts, a)
    else exists st, end :: SectionAt(narrow, ts, section, st, end)
  }

  method ScanCheck(ts: seq<SqlInfo>) returns (section: seq<SqlInfo>)
    ensures EarliestSection(true, ts, section)
  {
    var st, end := 0, 1;
    while st < |ts| && end < |ts|
      invariant 0 <= st < end && (|ts| > 0 ==> end <= |ts|) && (|ts| == 0 ==> st == 0 && end == 1)
      invariant forall i :: st < i < end ==> Joined(true, ts, i)
      invariant 0 < st < |ts| ==> !Joined(true, ts, st)
      invariant forall a :: a < st ==> !Triple(true, ts, a)
      decreases |ts| - end
    {
      var interval := Int32(ts[end].time - ts[end - 1].time);
      if interval < INTERVAL {
        assert Joined(true, ts, end);
        end := end + 1;
      } else {
        assert !Joined(true, ts, end);
        if end - st >= COUNT {
          break;
        }
        forall a | st <= a < end ensures !Triple(true, ts, a) {
          assert a + 1 == end || a + 2 == end;
        }
        st := end;
        end := end + 1;
      }
    }
    section := [];
    if end - st >= COUNT {
      section := ts[st..end];
      assert SectionAt(true, ts, section, st, end);
    } else {
      forall a ensures !Triple(true, ts, a) {}
    }
  }

  /** A section is found if and only if some three executions follow each other closely. */
  lemma FoundIffTriple(narrow: bool, ts: seq<SqlInfo>, section: seq<SqlInfo>)
    requires EarliestSection(narrow, ts, section)
    ensures section != [] <==> exists a :: Triple(narrow, ts, a)
  {
    if section != [] {
      var st, end :| SectionAt(narrow, ts, section, st, end);
      assert Triple(narrow, ts, st);
    }
  }

  lemma SectionUnique(narrow: bool, ts: seq<SqlInfo>, s: seq<SqlInfo>, s': seq<SqlInfo>)
    requires EarliestSection(narrow, ts, s) && EarliestSection(narrow, ts, s')
    ensures s == s'
  {
    FoundIffTriple(narrow, ts, s);
    FoundIffTriple(narrow, ts, s');
    if s != [] {
      var st, end :| SectionAt(narrow, ts, s, st, end);
      var st', end' :| SectionAt(narrow, ts, s', st', end');
      assert Triple(narrow, ts, st) && Triple(narrow, ts, st');
      assert st == st';
      SameEnd(narrow, ts, st, end, end');
    }
  }

  lemma SameEnd(narrow: bool, ts: seq<SqlInfo>, st: int, end: int, end': int)
    requires MaximalRun(narrow, ts, st, end) && MaximalRun(narrow, ts, st, end')
    ensures end == end'
  {}

  // ----- the sampled part of the history

  ghost predicate Ordered(h: seq<SqlInfo>) {
    forall i, j :: 0 <= i <= j < |h| ==> h[i].time <= h[j].time
  }

  /** The last 30 statements, and before them those less than 200 ms before the first of them. */
  ghost predicate Boundary(h: seq<SqlInfo>, lo: int) {
    var st := |h| - SAMPLE;
    if st <= 0 then lo == 0
    else
      && 0 <= lo <= st
      && (forall j :: lo <= j < st ==> h[st].time - h[j].time < INTERVAL * (COUNT - 1))
      && (lo > 0 ==> h[st].time - h[lo - 1].time >= INTERVAL * (COUNT - 1))
  }

  method HandleTheBoundary(h: seq<SqlInfo>) returns (checked: seq<SqlInfo>, lo: nat)
    ensures lo <= |h| && checked == h[lo..] && Boundary(h, lo)
  {
    var st := |h| - SAMPLE;
    var from := if st > 0 then st else 0;
    checked := [];
    for i := from to |h|
      invariant checked == h[from..i]
    {
      checked := checked + [h[i]];
    }
    lo := from;
    if st > 0 {
      var threshold := INTERVAL * (COUNT - 1);
      var j := st - 1;
      while j >= 0
        invariant -1 <= j < st && lo == j + 1 && checked == h[lo..]
        invariant forall i :: lo <= i < st ==> h[st].time - h[i].time < threshold
        decreases j
      {
        if h[st].time - h[j].time >= threshold {
          break;
        }
        checked := [h[j]] + checked;
        lo := j;
        j := j - 1;
      }
    }
  }

  // ----- buckets

  function Statement(x: SqlInfo): string {
    if x.wildcard != "" then x.wildcard else x.sql
  }

  /** Unprepared, and with `key` as its wildcard text, or as its text if it has no
      wildcard text. */
  predicate Belongs(x: SqlInfo, key: string) {
    !x.prepared && key != "" && (x.wildcard == key || (x.wildcard == "" && x.sql == key))
  }

  /** The executions of one unprepared statement, in order. */
  function Bucket(h: seq<SqlInfo>, key: string): seq<SqlInfo> {
    if h == [] then []
    else
      var b := Bucket(h[..|h| - 1], key);
      if Belongs(h[|h| - 1], key) then b + [h[|h| - 1]] else b
  }

  method MakeGroup(checked: seq<SqlInfo>) returns (buckets: map<string, seq<SqlInfo>>)
    ensures forall key :: key in buckets <==> Bucket(checked, key) != []
    ensures forall key :: key in buckets ==> buckets[key] == Bucket(checked, key)
  {
    buckets := map[];
    for i := 0 to |checked|
      invariant forall key :: key in buckets <==> Bucket(checked[..i], key) != []
      invariant forall key :: key in buckets ==> buckets[key] == Bucket(checked[..i], key)
    {
      var info := checked[i];
      assert checked[..i + 1][..i] == checked[..i];
      if info.prepared {
        continue;
      }
      var key := Statement(info);
      if key == "" {
        continue;
      }
      if key !in buckets {
        buckets := buckets[key := []];
      }
      buckets := buckets[key := buckets[key] + [info]];
    }
    assert checked[..|checked|] == checked;
  }

  // ----- the whole check

  /** `Check`: the sections that are reported, by statement.  `listed` is the white list. */
  method Check(h: seq<SqlInfo>, listed: string -> bool)
    returns (sections: map<string, seq<SqlInfo>>, lo: nat)
    ensures lo <= |h| && Boundary(h, lo)
    ensures forall key :: key in sections ==>
              Reports(Bucket(h[lo..], key), listed, sections[key])
    ensures forall key :: key !in sections ==> Passed(Bucket(h[lo..], key), listed)
  {
    var checked;
    checked, lo := HandleTheBoundary(h);
    var buckets := MakeGroup(checked);
    sections := map[];
    var todo := buckets.Keys;
    while todo != {}
      invariant todo <= buckets.Keys
      invariant forall key :: key in sections ==> key in buckets.Keys - todo
      invariant forall key :: key in sections ==>
                  Reports(buckets[key], listed, sections[key])
      invariant forall key :: key in buckets.Keys - todo && key !in sections ==> Passed(buckets[key], listed)
      decreases |todo|
    {
      Inhabited(todo);
      var key :| key in todo;
      todo := todo - {key};
      var group := buckets[key];
      if listed(group[0].wildcard) || listed(group[0].sql) {
        continue;
      }
      var section := ScanCheck(group);
      if section != [] {
        sections := sections[key := section];
      } else {
        assert EarliestSection(true, group, []);
      }
    }
  }

  /** No section is reported for a bucket: it is listed or no three executions follow closely. */
  ghost predicate Passed(bucket: seq<SqlInfo>, listed: string -> bool) {
    || EarliestSection(true, bucket, [])
    || Exempt(bucket, listed)
  }

  ghost predicate Exempt(bucket: seq<SqlInfo>, listed: string -> bool) {
    bucket != [] && (listed(bucket[0].wildcard) || listed(bucket[0].sql))
  }

  ghost predicate Reports(bucket: seq<SqlInfo>, listed: string -> bool, section: seq<SqlInfo>) {
    section != [] && EarliestSection(true, bucket, section) && !Exempt(bucket, listed)
  }

  lemma Inhabited<T>(s: set<T>)
    ensures s == {} || exists x :: x in s
  {
    if forall x :: x !in s {
      assert s == {};
    }
  }

  // ----- nothing is missed

  /** `a` and `b` are successive executions of a statement, less than 100 ms apart. */
  ghost predicate Successive(h: seq<SqlInfo>, key: string, a: int, b: int) {
    && 0 <= a < b < |h| && Belongs(h[a], key) && Belongs(h[b], key)
    && (forall i :: a < i < b ==> !Belongs(h[i], key))
    && h[b].time - h[a].time < INTERVAL
  }

  lemma {:induction false} BucketSkips(h: seq<SqlInfo>, key: string, i: nat, j: nat)
    requires i <= j <= |h| && forall k :: i <= k < j ==> !Belongs(h[k], key)
    ensures Bucket(h[..j], key) == Bucket(h[..i], key)
  {
    if i < j {
      BucketSkips(h, key, i, j - 1);
      assert h[..j][..j - 1] == h[..j - 1];
    }
  }

  lemma {:induction false} BucketGrows(h: seq<SqlInfo>, key: string, i: nat)
    requires i <= |h|
    ensures Bucket(h[..i], key) <= Bucket(h, key)
    decreases |h|
  {
    if i < |h| {
      BucketGrows(h[..|h| - 1], key, i);
      assert h[..|h| - 1][..i] == h[..i];
    } else {
      assert h[..i] == h;
    }
  }

  /** An execution stands in its bucket behind the earlier ones. */
  lemma BucketAt(h: seq<SqlInfo>, key: string, i: nat)
    requires i < |h| && Belongs(h[i], key)
    ensures var b := Bucket(h[..i], key);
            |b| < |Bucket(h, key)| && Bucket(h, key)[|b|] == h[i] && Bucket(h[..i + 1], key) == b + [h[i]]
  {
    assert h[..i + 1][..i] == h[..i];
    BucketGrows(h, key, i + 1);
  }

  lemma SuccessiveInBucket(h: seq<SqlInfo>, key: string, a: int, b: int)
    requires Successive(h, key, a, b)
    ensures var bucket, p := Bucket(h, key), |Bucket(h[..a], key)|;
            p + 1 < |bucket| && bucket[p] == h[a] && bucket[p + 1] == h[b] && p + 1 == |Bucket(h[..b], key)|
  {
    BucketAt(h, key, a);
    BucketAt(h, key, b);
    BucketSkips(h, key, a + 1, b);
  }

  lemma SuccessiveInSuffix(h: seq<SqlInfo>, key: string, lo: int, a: int, b: int)
    requires 0 <= lo <= a && Successive(h, key, a, b)
    ensures Successive(h[lo..], key, a - lo, b - lo)
  {}

  lemma TripleOf(ts: seq<SqlInfo>, p: int)
    requires 0 <= p && p + 2 < |ts|
    requires 0 <= ts[p + 1].time - ts[p].time < INTERVAL && 0 <= ts[p + 2].time - ts[p + 1].time < INTERVAL
    ensures Triple(true, ts, p)
  {}

  lemma ThreeInBucket(h: seq<SqlInfo>, key: string, a: int, b: int, c: int)
    requires Ordered(h) && Successive(h, key, a, b) && Successive(h, key, b, c)
    ensures exists p :: Triple(true, Bucket(h, key), p)
  {
    SuccessiveInBucket(h, key, a, b);
    SuccessiveInBucket(h, key, b, c);
    assert h[a].time <= h[b].time <= h[c].time;
    TripleOf(Bucket(h, key), |Bucket(h[..a], key)|);
  }

  /** The look-back reaches far enough: every triple that ends in the sample is in it. */
  lemma LookBackReaches(h: seq<SqlInfo>, lo: int, key: string, a: int, b: int, c: int)
    requires Ordered(h) && Boundary(h, lo) && Successive(h, key, a, b) && Successive(h, key, b, c)
    requires c >= |h| - SAMPLE
    ensures lo <= a
  {
  }

  /** With times in order, three successive executions of an unprepared statement, each
      less than 100 ms after the one before and the last among the final 30 entries, give
      that statement's bucket a section. */
  lemma NothingIsMissed(h: seq<SqlInfo>, lo: int, key: string, a: int, b: int, c: int, section: seq<SqlInfo>)
    requires Ordered(h) && Boundary(h, lo) && Successive(h, key, a, b) && Successive(h, key, b, c)
    requires c >= |h| - SAMPLE
    requires EarliestSection(true, Bucket(h[lo..], key), section)
    ensures section != []
  {
    LookBackReaches(h, lo, key, a, b, c);
    SuccessiveInSuffix(h, key, lo, a, b);
    SuccessiveInSuffix(h, key, lo, b, c);
    assert Ordered(h[lo..]);
    ThreeInBucket(h[lo..], key, a - lo, b - lo, c - lo);
    FoundIffTriple(true, Bucket(h[lo..], key), section);
  }

  // ----- gaps that 32 bits do not hold

  /** A gap of 100 ms or more that looks shorter once it is cut to 32 bits. */
  predicate Wraps(gap: int) {
    gap >= INTERVAL && Int32(gap) < INTERVAL
  }

  lemma WrapsExactly(gap: int)
    ensures Wraps(gap) <==> gap >= 0x8000_0000 && (gap + 0x8000_0000) % 0x1_0000_0000 < 0x8000_0000 + INTERVAL
  {}

  ghost predicate GapsIn(ts: seq<SqlInfo>, gaps: int -> bool) {
    forall i :: 0 < i < |ts| ==> gaps(ts[i].time - ts[i - 1].time)
  }

  /** The scan of every bucket with such gaps finds the section by the real gaps. */
  ghost predicate ScansRight(gaps: int -> bool) {
    forall ts, section :: GapsIn(ts, gaps) && EarliestSection(true, ts, section) ==> EarliestSection(false, ts, section)
  }

  lemma SameJoins(ts: seq<SqlInfo>, gaps: int -> bool, i: int)
    requires (forall g :: gaps(g) ==> 0 <= g && !Wraps(g)) && GapsIn(ts, gaps) && 0 < i < |ts|
    ensures Joined(true, ts, i) == Joined(false, ts, i)
  {
    var gap := ts[i].time - ts[i - 1].time;
    assert gaps(gap);
  }

  lemma SameSections(ts: seq<SqlInfo>, section: seq<SqlInfo>)
    requires forall i :: 0 < i < |ts| ==> Joined(true, ts, i) == Joined(false, ts, i)
    requires EarliestSection(true, ts, section)
    ensures EarliestSection(false, ts, section)
  {
    forall a ensures Triple(true, ts, a) == Triple(false, ts, a) {}
    if section != [] {
      var st, end :| SectionAt(true, ts, section, st, end);
      assert SectionAt(false, ts, section, st, end);
    }
  }

  /** Three executions a wrapped gap apart are reported although they are far apart. */
  lemma WrappedGapIsReported(gap: int, x: SqlInfo)
    requires Wraps(gap)
    ensures var ts := [x, x.(time := x.time + gap), x.(time := x.time + 2 * gap)];
            EarliestSection(true, ts, ts) && !EarliestSection(false, ts, ts)
  {
    var ts := [x, x.(time := x.time + gap), x.(time := x.time + 2 * gap)];
    assert Joined(true, ts, 1) && Joined(true, ts, 2) && !Joined(false, ts, 1);
    assert SectionAt(true, ts, ts, 0, 3);
    assert forall a :: !Triple(false, ts, a);
  }

  /** The scan is right about the real gaps, whatever the bucket, if and only if no gap
      that can occur wraps. */
  lemma ScansRightIffNoGapWraps(gaps: int -> bool)
    requires forall g :: gaps(g) ==> 0 <= g
    ensures ScansRight(gaps) <==> forall g :: gaps(g) ==> !Wraps(g)
  {
    if forall g :: gaps(g) ==> !Wraps(g) {
      forall ts, section | GapsIn(ts, gaps) && EarliestSection(true, ts, section) ensures EarliestSection(false, ts, section) {
        forall i | 0 < i < |ts| ensures Joined(true, ts, i) == Joined(false, ts, i) {
          SameJoins(ts, gaps, i);
        }
        SameSections(ts, section);
      }
    } else {
      var g :| gaps(g) && Wraps(g);
      var x := SqlInfo("", "", false, 0);
      var ts := [x, x.(time := g), x.(time := 2 * g)];
      WrappedGapIsReported(g, x);
      assert GapsIn(ts, gaps);
    }
  }
}
