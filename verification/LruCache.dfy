/** The cache of already checked statements (`lru_cache.h`, used by `lint.cc`). */
module LruCache {

  // ----- recency of keys

  function Without<K(==)>(s: seq<K>, k: K): seq<K> {
    if s == [] then [] else if s[0] == k then Without(s[1..], k) else [s[0]] + Without(s[1..], k)
  }

  /** The distinct keys of a history of touches, the latest first. */
  function Newest<K(==)>(t: seq<K>): seq<K> {
    if t == [] then [] else [t[|t| - 1]] + Without(Newest(t[..|t| - 1]), t[|t| - 1])
  }

  function First<K>(s: seq<K>, n: nat): seq<K> {
    if |s| <= n then s else s[..n]
  }

  ghost function Distinct<K>(t: seq<K>): set<K> {
    set x | x in t
  }

  ghost predicate NoRepeats<K>(s: seq<K>) {
    forall i, j :: 0 <= i < j < |s| ==> s[i] != s[j]
  }

  /** Fewer than `n` distinct keys were touched since `k` was last touched. */
  ghost predicate Recently<K>(t: seq<K>, k: K, n: nat) {
    exists i :: 0 <= i < |t| && LastTouch(t, k, i) && |Distinct(t[i + 1..])| < n
  }

  ghost predicate LastTouch<K>(t: seq<K>, k: K, i: int)
    requires 0 <= i < |t|
  {
    t[i] == k && k !in t[i + 1..]
  }

  // ----- the cache as a value

  /** `keys` has the latest key first; `values` holds the cached values. */
  datatype Cache<K, V> = Cache(keys: seq<K>, values: map<K, V>)

  datatype Op<K, V> = Put(key: K, val: V) | Get(key: K) | Clear

  function PutKey<K(==), V>(c: Cache<K, V>, n: nat, k: K, v: V): Cache<K, V> {
    if k in c.values then Cache([k] + Without(c.keys, k), c.values[k := v])
    else
      var keys := [k] + c.keys;
      if |keys| <= n then Cache(keys, c.values[k := v])
      else Cache(keys[..|keys| - 1], c.values[k := v] - {keys[|keys| - 1]})
  }

  function GetKey<K(==), V>(c: Cache<K, V>, k: K): Cache<K, V> {
    if k in c.values then c.(keys := [k] + Without(c.keys, k)) else c
  }

  function Step<K(==), V>(c: Cache<K, V>, n: nat, op: Op<K, V>): Cache<K, V> {
    match op
    case Put(k, v) => PutKey(c, n, k, v)
    case Get(k) => GetKey(c, k)
    case Clear => Cache([], map[])
  }

  function Run<K(==), V>(n: nat, h: seq<Op<K, V>>): Cache<K, V> {
    if h == [] then Cache([], map[]) else Step(Run(n, h[..|h| - 1]), n, h[|h| - 1])
  }

  // ----- the cache as the source keeps it

  /** A node of the key list; `id` stands for the iterator that points to it. */
  datatype Node<K> = Node(id: nat, key: K)
  datatype Entry<V> = Entry(val: V, node: nat)

  /** The node is the one that its key's entry points to. */
  ghost predicate Owned<K, V>(list: seq<Node<K>>, entries: map<K, Entry<V>>, next: nat, i: int)
    requires 0 <= i < |list|
  {
    list[i].id < next && list[i].key in entries && entries[list[i].key].node == list[i].id
  }

  /** The key's entry points to a node of that key. */
  ghost predicate Placed<K, V>(list: seq<Node<K>>, entries: map<K, Entry<V>>, k: K)
    requires k in entries
  {
    exists i :: 0 <= i < |list| && list[i] == Node(entries[k].node, k)
  }

  ghost predicate Apart<K>(list: seq<Node<K>>, i: int, j: int)
    requires 0 <= i < j < |list|
  {
    list[i].id != list[j].id && list[i].key != list[j].key
  }

  ghost predicate Linked<K, V>(list: seq<Node<K>>, entries: map<K, Entry<V>>, next: nat) {
    && (forall i, j {:trigger Apart(list, i, j)} :: 0 <= i < j < |list| ==> Apart(list, i, j))
    && (forall i {:trigger Owned(list, entries, next, i)} :: 0 <= i < |list| ==> Owned(list, entries, next, i))
    && (forall k {:trigger Placed(list, entries, k)} :: k in entries ==> Placed(list, entries, k))
  }

  function Drop<T>(s: seq<T>, p: nat): (r: seq<T>)
    requires p < |s|
    ensures |r| == |s| - 1 && forall i :: 0 <= i < |r| ==> r[i] == if i < p then s[i] else s[i + 1]
  {
    s[..p] + s[p + 1..]
  }

  function KeysOf<K>(list: seq<Node<K>>): (s: seq<K>)
    ensures |s| == |list| && forall i :: 0 <= i < |s| ==> s[i] == list[i].key
  {
    seq(|list|, i requires 0 <= i < |list| => list[i].key)
  }

  /** Where the node at `i` of `list` stands once the node at `p` has moved to the front. */
  function Moved(p: nat, i: nat): nat {
    if i == p then 0 else if i < p then i + 1 else i
  }

  function MovedFrom(p: nat, i: nat): nat {
    if i == 0 then p else if i <= p then i - 1 else i
  }

  lemma FrontLinked<K, V>(list: seq<Node<K>>, entries: map<K, Entry<V>>, next: nat, p: nat)
    requires Linked(list, entries, next) && p < |list|
    ensures Linked([list[p]] + Drop(list, p), entries, next)
  {
    var r := [list[p]] + Drop(list, p);
    assert forall i: nat :: i < |r| ==> r[i] == list[MovedFrom(p, i)];
    forall i, j | 0 <= i < j < |r| ensures Apart(r, i, j) {
      var a, b := MovedFrom(p, i), MovedFrom(p, j);
      assert if a < b then Apart(list, a, b) else Apart(list, b, a);
    }
    forall i | 0 <= i < |r| ensures Owned(r, entries, next, i) {
      assert Owned(list, entries, next, MovedFrom(p, i));
    }
    forall k | k in entries ensures Placed(r, entries, k) {
      assert Placed(list, entries, k);
      var i: nat :| i < |list| && list[i] == Node(entries[k].node, k);
      assert r[Moved(p, i)] == list[i];
    }
  }

  /** The front key gets a new node and a new value. */
  lemma RenewedLinked<K, V>(list: seq<Node<K>>, entries: map<K, Entry<V>>, next: nat, v: V)
    requires Linked(list, entries, next) && list != []
    ensures var k := list[0].key; Linked([Node(next, k)] + list[1..], entries[k := Entry(v, next)], next + 1)
  {
    var k := list[0].key;
    var r, e, next' := [Node(next, k)] + list[1..], entries[k := Entry(v, next)], next + 1;
    assert forall i :: 0 < i < |r| ==> r[i] == list[i];
    forall i | 0 <= i < |r| ensures Owned(r, e, next', i) {
      assert Owned(list, entries, next, i);
      assert i > 0 ==> Apart(list, 0, i);
    }
    forall i, j | 0 <= i < j < |r| ensures Apart(r, i, j) {
      assert Apart(list, i, j) && Owned(list, entries, next, j);
    }
    forall x | x in e ensures Placed(r, e, x) {
      if x == k {
        assert r[0] == Node(e[x].node, x);
      } else {
        assert Placed(list, entries, x);
        var i :| 0 <= i < |list| && list[i] == Node(entries[x].node, x);
        assert r[i] == Node(e[x].node, x);
      }
    }
  }

  lemma AddedLinked<K, V>(list: seq<Node<K>>, entries: map<K, Entry<V>>, next: nat, k: K, v: V)
    requires Linked(list, entries, next) && k !in entries
    ensures Linked([Node(next, k)] + list, entries[k := Entry(v, next)], next + 1)
  {
    var r, e, next' := [Node(next, k)] + list, entries[k := Entry(v, next)], next + 1;
    assert forall i :: 0 < i < |r| ==> r[i] == list[i - 1];
    forall i | 0 <= i < |r| ensures Owned(r, e, next', i) {
      assert i > 0 ==> Owned(list, entries, next, i - 1);
    }
    forall i, j | 0 <= i < j < |r| ensures Apart(r, i, j) {
      assert Owned(list, entries, next, j - 1) && (i > 0 ==> Apart(list, i - 1, j - 1));
    }
    forall x | x in e ensures Placed(r, e, x) {
      if x == k {
        assert r[0] == Node(e[x].node, x);
      } else {
        assert Placed(list, entries, x);
        var i :| 0 <= i < |list| && list[i] == Node(entries[x].node, x);
        assert r[i + 1] == Node(e[x].node, x);
      }
    }
  }

  lemma EvictedLinked<K, V>(list: seq<Node<K>>, entries: map<K, Entry<V>>, next: nat)
    requires Linked(list, entries, next) && list != []
    ensures Linked(list[..|list| - 1], entries - {list[|list| - 1].key}, next)
  {
    var p := |list| - 1;
    var r, e := list[..p], entries - {list[p].key};
    forall i | 0 <= i < |r| ensures Owned(r, e, next, i) {
      assert Owned(list, entries, next, i) && Apart(list, i, p);
    }
    forall i, j | 0 <= i < j < |r| ensures Apart(r, i, j) {
      assert Apart(list, i, j);
    }
    forall x | x in e ensures Placed(r, e, x) {
      assert Placed(list, entries, x);
      var i :| 0 <= i < |list| && list[i] == Node(entries[x].node, x);
      assert r[i] == Node(e[x].node, x);
    }
  }

  ghost function ValuesOf<K, V>(entries: map<K, Entry<V>>): map<K, V> {
    map k | k in entries :: entries[k].val
  }

  lemma ValueSet<K, V>(list: seq<Node<K>>, entries: map<K, Entry<V>>, k: K, v: V, id: nat)
    ensures ValuesOf(entries[k := Entry(v, id)]) == ValuesOf(entries)[k := v]
    ensures KeysOf([Node(id, k)] + list) == [k] + KeysOf(list)
  {}

  lemma ValueEvicted<K, V>(list: seq<Node<K>>, entries: map<K, Entry<V>>)
    requires list != []
    ensures var p := |list| - 1;
            && ValuesOf(entries - {list[p].key}) == ValuesOf(entries) - {KeysOf(list)[p]}
            && KeysOf(list[..p]) == KeysOf(list)[..p]
  {}

  class LRUCache<K(==), V> {
    var list: seq<Node<K>>
    var entries: map<K, Entry<V>>
    var next: nat
    const maxSize: nat

    constructor (n: nat)
      ensures Valid() && maxSize == n && Value() == Cache([], map[])
    {
      list, entries, next, maxSize := [], map[], 0, n;
      new;
      assert Value().values == map[];
    }

    ghost predicate Valid()
      reads this
    {
      |list| <= maxSize && Linked(list, entries, next)
    }

    ghost function Value(): Cache<K, V>
      reads this
    {
      Cache(KeysOf(list), ValuesOf(entries))
    }

    /** Where the node that an entry points to stands. */
    method Locate(k: K) returns (p: nat)
      requires Valid() && k in entries
      ensures p < |list| && list[p] == Node(entries[k].node, k)
      ensures KeysOf(Drop(list, p)) == Without(KeysOf(list), k)
    {
      p := 0;
      assert Placed(list, entries, k);
      ghost var i :| 0 <= i < |list| && list[i] == Node(entries[k].node, k);
      while list[p].id != entries[k].node
        invariant p <= i
        decreases i - p
      {
        p := p + 1;
      }
      assert p < i ==> Apart(list, p, i);
      forall i, j | 0 <= i < j < |list| ensures KeysOf(list)[i] != KeysOf(list)[j] {
        assert Apart(list, i, j);
      }
      WithoutAt(KeysOf(list), p);
    }

    method Put(k: K, v: V)
      requires Valid()
      modifies this`list, this`entries, this`next
      ensures Valid()
      ensures Value() == PutKey(old(Value()), maxSize, k, v)
    {
      if k in entries {
        var p := Locate(k);
        FrontLinked(list, entries, next, p);
        RenewedLinked([list[p]] + Drop(list, p), entries, next, v);
        list := Drop(list, p);
        ValueSet(list, entries, k, v, next);
        list, entries, next := [Node(next, k)] + list, entries[k := Entry(v, next)], next + 1;
        return;
      }
      AddedLinked(list, entries, next, k, v);
      ValueSet(list, entries, k, v, next);
      list, entries, next := [Node(next, k)] + list, entries[k := Entry(v, next)], next + 1;
      if |list| > maxSize {
        Evict();
      }
    }

    /** Takes out the last entry. */
    method Evict()
      requires list != [] && |list| <= maxSize + 1 && Linked(list, entries, next)
      modifies this`list, this`entries
      ensures Valid()
      ensures var was := old(Value());
              var last := |was.keys| - 1;
              Value() == Cache(was.keys[..last], was.values - {was.keys[last]})
    {
      EvictedLinked(list, entries, next);
      ValueEvicted(list, entries);
      var last := |list| - 1;
      entries := entries - {list[last].key};
      list := list[..last];
    }

    method Get(k: K, was: V) returns (found: bool, v: V)
      requires Valid()
      modifies this`list
      ensures Valid()
      ensures found == (k in old(Value()).values) && v == if found then old(Value()).values[k] else was
      ensures Value() == GetKey(old(Value()), k)
    {
      if k !in entries {
        return false, was;
      }
      v := entries[k].val;
      var p := Locate(k);
      FrontLinked(list, entries, next, p);
      ghost var rest := Without(KeysOf(list), k);
      list := [list[p]] + Drop(list, p);
      assert KeysOf(list) == [k] + rest;
      found := true;
    }

    method Clear()
      requires Valid()
      modifies this`list, this`entries
      ensures Valid()
      ensures Value() == Cache([], map[])
    {
      list := [];
      entries := map[];
    }
  }

  lemma {:induction false} WithoutAt<K>(s: seq<K>, p: nat)
    requires p < |s| && NoRepeats(s)
    ensures Without(s, s[p]) == Drop(s, p)
  {
    var k, t := s[p], s[1..];
    if p == 0 {
      WithoutNone(t, k);
    } else {
      assert NoRepeats(t);
      WithoutAt(t, p - 1);
      assert Without(s, k) == [s[0]] + Without(t, k);
    }
  }

  lemma {:induction false} WithoutNone<K>(s: seq<K>, k: K)
    requires k !in s
    ensures Without(s, k) == s
  {
    if s != [] { WithoutNone(s[1..], k); }
  }

  // ----- what the cache holds after any calls

  /** The keys touched since the last `Clear`, oldest first: a `Put` touches its key,
      a `Get` only if the key is among the `n` newest ones. */
  function Touches<K(==), V>(n: nat, h: seq<Op<K, V>>): seq<K> {
    if h == [] then []
    else
      var t := Touches(n, h[..|h| - 1]);
      match h[|h| - 1]
      case Put(k, _) => t + [k]
      case Get(k) => if k in First(Newest(t), n) then t + [k] else t
      case Clear => []
  }

  /** `v` is what the last `Put` of `k` stored. */
  ghost predicate LastPut<K, V>(h: seq<Op<K, V>>, k: K, v: V) {
    exists i :: 0 <= i < |h| && h[i] == Put(k, v) && forall j :: i < j < |h| ==> !(h[j].Put? && h[j].key == k)
  }

  lemma {:induction false} WithoutMembers<K>(s: seq<K>, k: K)
    ensures forall x :: x in Without(s, k) <==> x in s && x != k
    ensures NoRepeats(s) ==> NoRepeats(Without(s, k))
  {
    if s != [] {
      var t := s[1..];
      WithoutMembers(t, k);
      if NoRepeats(s) {
        assert NoRepeats(t) && s[0] !in t;
      }
    }
  }

  lemma {:induction false} NewestMembers<K>(t: seq<K>)
    ensures NoRepeats(Newest(t))
    ensures forall x :: x in Newest(t) <==> x in t
  {
    if t != [] {
      var u, k := t[..|t| - 1], t[|t| - 1];
      NewestMembers(u);
      var rest := Without(Newest(u), k);
      WithoutMembers(Newest(u), k);
      assert k !in rest && Newest(t) == [k] + rest;
      assert t == u + [k];
    }
  }

  /** Moving a cached key to the front of the first `n` newest keys gives the first `n`
      of the new order. */
  lemma HitKeepsFirst<K>(s: seq<K>, n: nat, k: K)
    requires NoRepeats(s) && k in First(s, n)
    ensures [k] + Without(First(s, n), k) == First([k] + Without(s, k), n)
  {
    var f := First(s, n);
    var p: nat :| p < |f| && f[p] == k;
    WithoutAt(s, p);
    WithoutAt(f, p);
    FrontCommutes(s, n, p);
  }

  lemma FrontCommutes<K>(s: seq<K>, n: nat, p: nat)
    requires p < |First(s, n)|
    ensures [s[p]] + Drop(First(s, n), p) == First([s[p]] + Drop(s, p), n)
  {}

  /** So does pushing a missing key to the front and dropping the last one if it is too many. */
  lemma MissKeepsFirst<K>(s: seq<K>, n: nat, k: K)
    requires NoRepeats(s) && k !in First(s, n)
    ensures var keys := [k] + First(s, n);
            (if |keys| <= n then keys else keys[..|keys| - 1]) == First([k] + Without(s, k), n)
  {
    if k in s {
      var p: nat :| p < |s| && s[p] == k;
      assert p >= n;
      WithoutAt(s, p);
    } else {
      WithoutNone(s, k);
    }
  }

  ghost predicate Holds<K, V>(c: Cache<K, V>, t: seq<K>, n: nat) {
    c.keys == First(Newest(t), n) && c.values.Keys == Distinct(c.keys)
  }

  lemma NewestSnoc<K>(t: seq<K>, k: K)
    ensures Newest(t + [k]) == [k] + Without(Newest(t), k)
  {
    assert (t + [k])[..|t|] == t;
  }

  lemma DistinctFront<K>(s: seq<K>, k: K)
    requires k in s
    ensures Distinct([k] + Without(s, k)) == Distinct(s)
  {
    WithoutMembers(s, k);
    DistinctAdded(Without(s, k), k);
    assert Distinct(Without(s, k)) == Distinct(s) - {k};
  }

  lemma DistinctAdded<K>(s: seq<K>, k: K)
    ensures Distinct([k] + s) == Distinct(s) + {k}
  {}

  lemma DistinctButLast<K>(s: seq<K>)
    requires s != [] && NoRepeats(s)
    ensures Distinct(s[..|s| - 1]) == Distinct(s) - {s[|s| - 1]}
  {
    assert s == s[..|s| - 1] + [s[|s| - 1]];
  }

  lemma AddedNoRepeats<K>(s: seq<K>, n: nat, k: K)
    requires NoRepeats(s) && k !in First(s, n)
    ensures NoRepeats([k] + First(s, n))
  {}

  lemma GetHolds<K, V>(c: Cache<K, V>, t: seq<K>, n: nat, k: K)
    requires Holds(c, t, n)
    ensures (k in c.values) == (k in First(Newest(t), n))
    ensures Holds(GetKey(c, k), if k in First(Newest(t), n) then t + [k] else t, n)
  {
    if k in c.values {
      NewestMembers(t);
      NewestSnoc(t, k);
      HitKeepsFirst(Newest(t), n, k);
      DistinctFront(c.keys, k);
    }
  }

  lemma PutHolds<K, V>(c: Cache<K, V>, t: seq<K>, n: nat, k: K, v: V)
    requires Holds(c, t, n)
    ensures Holds(PutKey(c, n, k, v), t + [k], n)
  {
    var s := Newest(t);
    assert (k in c.values) == (k in c.keys);
    NewestMembers(t);
    NewestSnoc(t, k);
    if k in c.values {
      HitKeepsFirst(s, n, k);
      DistinctFront(c.keys, k);
    } else {
      PutMissHolds(c, s, n, k, v);
    }
  }

  lemma PutMissHolds<K, V>(c: Cache<K, V>, s: seq<K>, n: nat, k: K, v: V)
    requires c.keys == First(s, n) && c.values.Keys == Distinct(c.keys) && k !in c.values && k !in c.keys && NoRepeats(s)
    ensures var c' := PutKey(c, n, k, v);
            c'.keys == First([k] + Without(s, k), n) && c'.values.Keys == Distinct(c'.keys)
  {
    MissKeepsFirst(s, n, k);
    AddedNoRepeats(s, n, k);
    DistinctAdded(c.keys, k);
    DistinctButLast([k] + c.keys);
  }

  /** After any calls the cache holds exactly the `n` most recently touched distinct
      keys, the latest first. */
  lemma {:induction false} CacheHoldsNewest<K, V>(n: nat, h: seq<Op<K, V>>)
    ensures Holds(Run(n, h), Touches(n, h), n)
  {
    if h != [] {
      var h' := h[..|h| - 1];
      CacheHoldsNewest(n, h');
      match h[|h| - 1]
      case Put(k, v) => PutHolds(Run(n, h'), Touches(n, h'), n, k, v);
      case Get(k) => GetHolds(Run(n, h'), Touches(n, h'), n, k);
      case Clear =>
    }
  }

  /** Every cached value is the one put last. */
  lemma {:induction false} CachedValueIsLastPut<K, V>(n: nat, h: seq<Op<K, V>>, k: K)
    requires k in Run(n, h).values
    ensures LastPut(h, k, Run(n, h).values[k])
  {
    var h', op := h[..|h| - 1], h[|h| - 1];
    var v := Run(n, h).values[k];
    if op == Put(k, v) {
      assert h[|h| - 1] == Put(k, v);
    } else {
      assert !(op.Put? && op.key == k);
      assert k in Run(n, h').values && Run(n, h').values[k] == v;
      CachedValueIsLastPut(n, h', k);
      var i :| 0 <= i < |h'| && h'[i] == Put(k, v) && forall j :: i < j < |h'| ==> !(h'[j].Put? && h'[j].key == k);
      assert h[i] == Put(k, v);
    }
  }

  // ----- recency counted on the history

  function WithoutAll<K(==)>(s: seq<K>, b: seq<K>): seq<K> {
    if b == [] then s else Without(WithoutAll(s, b[..|b| - 1]), b[|b| - 1])
  }

  lemma {:induction false} WithoutConcat<K>(s: seq<K>, t: seq<K>, k: K)
    ensures Without(s + t, k) == Without(s, k) + Without(t, k)
  {
    if s == [] {
      assert s + t == t;
    } else {
      WithoutConcat(s[1..], t, k);
      assert (s + t)[1..] == s[1..] + t;
    }
  }

  lemma {:induction false} NewestSplit<K>(a: seq<K>, b: seq<K>)
    ensures Newest(a + b) == Newest(b) + WithoutAll(Newest(a), b)
  {
    if b == [] {
      assert a + b == a;
    } else {
      var b', k := b[..|b| - 1], b[|b| - 1];
      NewestSplit(a, b');
      assert a + b == (a + b') + [k] && b == b' + [k];
      NewestSnoc(a + b', k);
      NewestSnoc(b', k);
      WithoutConcat(Newest(b'), WithoutAll(Newest(a), b'), k);
    }
  }

  lemma {:induction false} FrontStays<K>(s: seq<K>, b: seq<K>)
    requires s != [] && s[0] !in b
    ensures WithoutAll(s, b) != [] && WithoutAll(s, b)[0] == s[0]
  {
    if b != [] {
      FrontStays(s, b[..|b| - 1]);
    }
  }

  lemma {:induction false} CountDistinct<K>(s: seq<K>)
    requires NoRepeats(s)
    ensures |Distinct(s)| == |s|
  {
    if s != [] {
      var u, k := s[..|s| - 1], s[|s| - 1];
      CountDistinct(u);
      assert s == u + [k];
      assert Distinct(s) == Distinct(u) + {k} && k !in u;
    }
  }

  /** A key stands in the newest-first order behind exactly the keys touched after it. */
  lemma PositionIsCount<K>(t: seq<K>, k: K, i: nat)
    requires i < |t| && LastTouch(t, k, i)
    ensures var p := |Distinct(t[i + 1..])|; p < |Newest(t)| && Newest(t)[p] == k
  {
    var a, b := t[..i + 1], t[i + 1..];
    assert t == a + b && a == t[..i] + [k];
    NewestSplit(a, b);
    NewestSnoc(t[..i], k);
    FrontStays(Newest(a), b);
    NewestMembers(b);
    CountDistinct(Newest(b));
    assert Distinct(Newest(b)) == Distinct(b);
  }

  lemma {:induction false} LastTouchExists<K>(t: seq<K>, k: K) returns (i: nat)
    requires k in t
    ensures i < |t| && LastTouch(t, k, i)
  {
    var last := |t| - 1;
    if t[last] == k {
      i := last;
    } else {
      assert t == t[..last] + [t[last]];
      i := LastTouchExists(t[..last], k);
      assert t[i + 1..] == t[..last][i + 1..] + [t[last]];
    }
  }

  /** A key is among the `n` newest ones if and only if fewer than `n` distinct keys
      were touched since it was. */
  lemma NewestMeansRecent<K>(t: seq<K>, k: K, n: nat)
    ensures k in First(Newest(t), n) <==> Recently(t, k, n)
  {
    NewestMembers(t);
    if k in t {
      var i := LastTouchExists(t, k);
      PositionIsCount(t, k, i);
      var p := |Distinct(t[i + 1..])|;
      if k in First(Newest(t), n) {
        var q :| 0 <= q < |First(Newest(t), n)| && First(Newest(t), n)[q] == k;
        assert Newest(t)[q] == k;
      }
      if Recently(t, k, n) {
        var j :| 0 <= j < |t| && LastTouch(t, k, j) && |Distinct(t[j + 1..])| < n;
        PositionIsCount(t, k, j);
      }
    }
  }

  // ----- which statements get the checkers for unchecked ones

  datatype SqlInfo = SqlInfo(sql: string, wildcard: string)

  function CacheKey(info: SqlInfo): string {
    if info.wildcard == "" then info.sql else info.wildcard
  }

  const CHECKED_SQLS: nat := 500

  /** The cache part of `Lint::Check` on one statement: the checkers for unchecked
      statements run, and the key is put, when it is not cached. */
  method CheckOne(cache: LRUCache<string, bool>, key: string, ghost keys: seq<string>) returns (ran: bool)
    requires cache.Valid() && Holds(cache.Value(), keys, cache.maxSize)
    modifies cache
    ensures cache.Valid() && Holds(cache.Value(), keys + [key], cache.maxSize)
    ensures ran == !Recently(keys, key, cache.maxSize)
  {
    NewestMeansRecent(keys, key, cache.maxSize);
    GetHolds(cache.Value(), keys, cache.maxSize, key);
    var found, checked := cache.Get(key, false);
    if !found {
      PutHolds(cache.Value(), keys, cache.maxSize, key, true);
      cache.Put(key, true);
    }
    return !found;
  }

  /** A statement is known by its wildcard text, or by its text if it has none. */
  ghost predicate KnownBy(info: SqlInfo, key: string) {
    info.wildcard == key != "" || (info.wildcard == "" && info.sql == key)
  }

  /** `keys` are what the statements are known by, in order. */
  ghost predicate KnownAs(infos: seq<SqlInfo>, keys: seq<string>) {
    |keys| == |infos| && forall i :: 0 <= i < |infos| ==> KnownBy(infos[i], keys[i])
  }

  ghost function CacheKeys(infos: seq<SqlInfo>): seq<string> {
    seq(|infos|, i requires 0 <= i < |infos| => CacheKey(infos[i]))
  }

  lemma KeysAreKnown(infos: seq<SqlInfo>, keys: seq<string>)
    ensures KnownAs(infos, keys) <==> keys == CacheKeys(infos)
  {
    if KnownAs(infos, keys) {
      forall i | 0 <= i < |infos| ensures keys[i] == CacheKeys(infos)[i] {
        assert KnownBy(infos[i], keys[i]);
      }
    }
  }

  /** The checkers ran for exactly the statements whose key was not among the last ones. */
  ghost predicate RanRight(ran: seq<bool>, keys: seq<string>) {
    |ran| == |keys| && forall i :: 0 <= i < |ran| ==> ran[i] == !Recently(keys[..i], keys[i], CHECKED_SQLS)
  }

  /** The same on a run of statements: the checkers for unchecked statements run for one
      if and only if its key is not among the 500 distinct keys processed last. */
  method CheckAll(infos: seq<SqlInfo>) returns (ran: seq<bool>)
    ensures |ran| == |infos|
    ensures forall keys :: KnownAs(infos, keys) ==> RanRight(ran, keys)
  {
    var cache := new LRUCache<string, bool>(CHECKED_SQLS);
    ran := [];
    ghost var all := CacheKeys(infos);
    for i := 0 to |infos|
      invariant fresh(cache) && cache.Valid() && cache.maxSize == CHECKED_SQLS
      invariant |ran| == i
      invariant forall j :: 0 <= j < i ==> ran[j] == !Recently(all[..j], all[j], CHECKED_SQLS)
      invariant Holds(cache.Value(), all[..i], CHECKED_SQLS)
    {
      var r := CheckOne(cache, CacheKey(infos[i]), all[..i]);
      assert all[..i + 1] == all[..i] + [all[i]];
      ran := ran + [r];
    }
    forall keys | KnownAs(infos, keys) ensures RanRight(ran, keys) {
      KeysAreKnown(infos, keys);
    }
  }
}
