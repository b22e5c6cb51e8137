/** The LRU cache: a hash index into a recency list (generic template of include/table/cache.h). */
module LRUCache {
  import opened DualList

  // ---------------------------------------------------------------- the cache as a sequence

  // The records, most recently used first, without those of one key.
  function Without<K(==), V>(s: seq<(K, V)>, key: K): seq<(K, V)> {
    if s == [] then [] else (if s[0].0 == key then [] else [s[0]]) + Without(s[1..], key)
  }

  function Take<T>(s: seq<T>, n: nat): seq<T> {
    if |s| <= n then s else s[..n]
  }

  predicate Holds<K(==), V>(s: seq<(K, V)>, key: K) {
    exists i :: 0 <= i < |s| && s[i].0 == key
  }

  /** A use of a record: it becomes the most recent one. */
  function Use<K(==), V>(s: seq<(K, V)>, key: K, value: V): seq<(K, V)> {
    [(key, value)] + Without(s, key)
  }

  predicate DistinctKeys<K(==), V>(s: seq<(K, V)>) {
    forall i, j :: 0 <= i < j < |s| ==> s[i].0 != s[j].0
  }

  lemma {:induction false} WithoutAbsent<K, V>(s: seq<(K, V)>, key: K)
    requires !Holds(s, key)
    ensures Without(s, key) == s
  {
    if s != [] {
      assert s[0].0 != key;
      assert forall i :: 0 <= i < |s| - 1 ==> s[1..][i] == s[i + 1];
      WithoutAbsent(s[1..], key);
    }
  }

  lemma {:induction false} WithoutSplit<K, V>(a: seq<(K, V)>, b: seq<(K, V)>)
    requires b != [] && !Holds(a, b[0].0) && !Holds(b[1..], b[0].0)
    ensures Without(a + b, b[0].0) == a + b[1..]
  {
    if a == [] {
      assert a + b == b && a + b[1..] == b[1..];
      WithoutAbsent(b[1..], b[0].0);
    } else {
      assert (a + b)[1..] == a[1..] + b && (a + b)[0] == a[0];
      assert forall i :: 0 <= i < |a| - 1 ==> a[1..][i] == a[i + 1];
      WithoutSplit(a[1..], b);
      assert [a[0]] + (a[1..] + b[1..]) == a + b[1..];
    }
  }

  // Removing a key removes exactly its one record.
  lemma WithoutAt<K, V>(s: seq<(K, V)>, k: nat)
    requires DistinctKeys(s) && k < |s|
    ensures Without(s, s[k].0) == s[..k] + s[k + 1..]
  {
    assert s == s[..k] + s[k..] && s[k..][1..] == s[k + 1..];
    WithoutSplit(s[..k], s[k..]);
  }

  lemma {:induction false} WithoutMembers<K, V>(s: seq<(K, V)>, key: K)
    ensures var r := Without(s, key);
            && !Holds(r, key)
            && (forall j :: 0 <= j < |r| ==> r[j] in s)
            && (forall i :: 0 <= i < |s| && s[i].0 != key ==> s[i] in r)
  {
    if s != [] {
      WithoutMembers(s[1..], key);
      forall i | 0 <= i < |s| && s[i].0 != key
        ensures s[i] in Without(s, key)
      {
        if i > 0 {
          assert s[i] == s[1..][i - 1];
        }
      }
    }
  }

  lemma {:induction false} WithoutConcat<K, V>(a: seq<(K, V)>, b: seq<(K, V)>, key: K)
    ensures Without(a + b, key) == Without(a, key) + Without(b, key)
  {
    if a == [] {
      assert a + b == b;
    } else {
      assert (a + b)[1..] == a[1..] + b;
      WithoutConcat(a[1..], b, key);
    }
  }

  // ---------------------------------------------------------------- recency

  /** The last position at which a key was used; -1 if it never was. */
  function LastUse<K(==), V>(uses: seq<(K, V)>, key: K): (p: int)
    ensures -1 <= p < |uses| && (p >= 0 ==> uses[p].0 == key)
    ensures forall i :: p < i < |uses| ==> uses[i].0 != key
  {
    if uses == [] then -1
    else if uses[|uses| - 1].0 == key then |uses| - 1
    else LastUse(uses[..|uses| - 1], key)
  }

  predicate ByRecency<K(==), V>(s: seq<(K, V)>, uses: seq<(K, V)>) {
    forall i, j :: 0 <= i < j < |s| ==> LastUse(uses, s[i].0) > LastUse(uses, s[j].0)
  }

  /** All records a cache without bounds would hold, the most recently used first. */
  function Recent<K(==), V>(uses: seq<(K, V)>): seq<(K, V)> {
    if uses == [] then [] else Use(Recent(uses[..|uses| - 1]), uses[|uses| - 1].0, uses[|uses| - 1].1)
  }

  lemma {:induction false} WithoutKeepsRecency<K, V>(s: seq<(K, V)>, key: K, uses: seq<(K, V)>)
    requires ByRecency(s, uses)
    ensures ByRecency(Without(s, key), uses)
  {
    if s != [] {
      WithoutKeepsRecency(s[1..], key, uses);
      WithoutMembers(s[1..], key);
      var rest := Without(s[1..], key);
      forall j | 0 <= j < |rest|
        ensures LastUse(uses, s[0].0) > LastUse(uses, rest[j].0)
      {
        assert rest[j] in rest;
        assert rest[j] in s[1..];
      }
    }
  }

  /** The records are the latest use of every key, ordered by when that was. */
  ghost predicate IsRecent<K, V>(s: seq<(K, V)>, uses: seq<(K, V)>) {
    && (forall j :: 0 <= j < |s| ==> LastUse(uses, s[j].0) >= 0 && s[j] == uses[LastUse(uses, s[j].0)])
    && (forall i {:trigger LastUse(uses, uses[i].0)} :: 0 <= i < |uses| ==> uses[LastUse(uses, uses[i].0)] in s)
    && ByRecency(s, uses)
  }

  lemma {:induction false} RecentIsByLastUse<K, V>(uses: seq<(K, V)>)
    ensures IsRecent(Recent(uses), uses)
    ensures DistinctKeys(Recent(uses))
  {
    if uses != [] {
      var n := |uses| - 1;
      RecentIsByLastUse(uses[..n]);
      RecentStep(Recent(uses[..n]), uses[..n], uses[n]);
      assert uses == uses[..n] + [uses[n]];
    }
  }

  lemma LastUseStep<K, V>(uses: seq<(K, V)>, last: (K, V), key: K)
    ensures LastUse(uses + [last], key) == if last.0 == key then |uses| else LastUse(uses, key)
  {
    assert (uses + [last])[..|uses|] == uses;
  }

  // Records of other keys stay as recent as they were.
  lemma OthersStep<K, V>(s: seq<(K, V)>, uses: seq<(K, V)>, last: (K, V))
    requires !Holds(s, last.0)
    ensures forall j :: 0 <= j < |s| ==> LastUse(uses + [last], s[j].0) == LastUse(uses, s[j].0)
  {
    forall j | 0 <= j < |s|
      ensures LastUse(uses + [last], s[j].0) == LastUse(uses, s[j].0)
    {
      LastUseStep(uses, last, s[j].0);
    }
  }

  lemma OrderStep<K, V>(rest: seq<(K, V)>, uses: seq<(K, V)>, last: (K, V))
    requires ByRecency(rest, uses) && !Holds(rest, last.0)
    ensures ByRecency([last] + rest, uses + [last])
  {
    OthersStep(rest, uses, last);
    LastUseStep(uses, last, last.0);
  }

  // The latest use of a key is in the records.
  lemma LatestIsKept<K, V>(s: seq<(K, V)>, uses: seq<(K, V)>, last: (K, V), i: nat)
    requires IsRecent(s, uses) && i < |uses|
    ensures (uses + [last])[LastUse(uses + [last], uses[i].0)] in Use(s, last.0, last.1)
  {
    LastUseStep(uses, last, uses[i].0);
    if uses[i].0 == last.0 {
      assert Use(s, last.0, last.1)[0] == last;
    } else {
      var x := uses[LastUse(uses, uses[i].0)];
      var j :| 0 <= j < |s| && s[j] == x;
      WithoutMembers(s, last.0);
      assert x in Without(s, last.0);
    }
  }

  lemma RestIsLatest<K, V>(s: seq<(K, V)>, uses: seq<(K, V)>, last: (K, V), j: nat)
    requires IsRecent(s, uses) && j < |Without(s, last.0)|
    ensures var x, all := Without(s, last.0)[j], uses + [last];
            LastUse(all, x.0) >= 0 && x == all[LastUse(all, x.0)]
  {
    var x := Without(s, last.0)[j];
    WithoutMembers(s, last.0);
    var i :| 0 <= i < |s| && s[i] == x;
    LastUseStep(uses, last, x.0);
  }

  // One more use.
  lemma RecentStep<K, V>(s: seq<(K, V)>, uses: seq<(K, V)>, last: (K, V))
    requires IsRecent(s, uses)
    ensures IsRecent(Use(s, last.0, last.1), uses + [last])
  {
    var rest := Without(s, last.0);
    WithoutMembers(s, last.0);
    WithoutKeepsRecency(s, last.0, uses);
    OrderStep(rest, uses, last);
    LastUseStep(uses, last, last.0);
    forall j | 0 <= j < |rest|
      ensures var x, all := rest[j], uses + [last]; LastUse(all, x.0) >= 0 && x == all[LastUse(all, x.0)]
    {
      RestIsLatest(s, uses, last, j);
    }
    var all := uses + [last];
    forall i | 0 <= i < |all|
      ensures all[LastUse(all, all[i].0)] in [last] + rest
    {
      if i < |uses| {
        LatestIsKept(s, uses, last, i);
      } else {
        assert ([last] + rest)[0] == last;
      }
    }
  }

  // A bounded cache forgets nothing it would still hold after the next use.
  lemma TakeUse<K, V>(s: seq<(K, V)>, n: nat, key: K, value: V)
    requires DistinctKeys(s)
    ensures Take(Use(Take(s, n), key, value), n) == Take(Use(s, key, value), n)
  {
    if |s| > n {
      var t := s[..n];
      assert s == t + s[n..];
      WithoutConcat(t, s[n..], key);
      WithoutShrinksByOne(t, key);
    }
  }

  lemma WithoutShrinksByOne<K, V>(s: seq<(K, V)>, key: K)
    requires DistinctKeys(s)
    ensures |Without(s, key)| == |s| - if Holds(s, key) then 1 else 0
  {
    if Holds(s, key) {
      var k :| 0 <= k < |s| && s[k].0 == key;
      WithoutAt(s, k);
    } else {
      WithoutAbsent(s, key);
    }
  }

  // ---------------------------------------------------------------- LRUCache

  datatype Option<T> = None | Some(value: T)

  /** The hash index and the list are in bijection: index[key] is the one node with that key. */
  ghost predicate Indexed<K, V, N>(index: map<K, N>, all: seq<N>, s: seq<(K, V)>) {
    && (s != [] ==> |all| == |s| + 2)
    && (forall i :: 0 <= i < |s| ==> s[i].0 in index && index[s[i].0] == NodeAt(all, i))
    && (forall k <- index :: Holds(s, k))
  }

  lemma IndexedKeysAreDistinct<K, V, N>(index: map<K, N>, all: seq<N>, s: seq<(K, V)>)
    requires Indexed(index, all, s) && forall i, j :: 0 <= i < j < |all| ==> all[i] != all[j]
    ensures DistinctKeys(s)
    ensures forall k :: k in index <==> Holds(s, k)
  {
    forall i, j | 0 <= i < j < |s|
      ensures s[i].0 != s[j].0
    {
      assert NodeAt(all, i) != NodeAt(all, j);
    }
  }

  lemma FrontedIsUse<K, V>(s: seq<(K, V)>, k: nat, value: V)
    requires DistinctKeys(s) && k < |s|
    ensures Fronted(s[k := (s[k].0, value)], k) == Use(s, s[k].0, value)
  {
    WithoutAt(s, k);
    var t := s[k := (s[k].0, value)];
    assert t[..k] == s[..k] && t[k + 1..] == s[k + 1..];
  }

  // Where record i of a list is when record k has moved to the front.
  function Place(i: nat, k: nat): nat {
    if i == k then 0 else if i < k then i + 1 else i
  }

  lemma MovedIndex<K, V, N>(index: map<K, N>, all: seq<N>, s: seq<(K, V)>, k: nat, value: V)
    requires Indexed(index, all, s) && k < |s|
    ensures Indexed(index, Moved(all, k), Fronted(s[k := (s[k].0, value)], k))
  {
    var s' := Fronted(s[k := (s[k].0, value)], k);
    forall i | 0 <= i < |s|
      ensures s'[Place(i, k)].0 == s[i].0 && NodeAt(Moved(all, k), Place(i, k)) == NodeAt(all, i)
    {
    }
    forall j | 0 <= j < |s|
      ensures s'[j].0 in index && index[s'[j].0] == NodeAt(Moved(all, k), j)
    {
      assert j == Place(if j == 0 then k else if j <= k then j - 1 else j, k);
    }
    forall key <- index
      ensures Holds(s', key)
    {
      var i :| 0 <= i < |s| && s[i].0 == key;
      assert s'[Place(i, k)].0 == key;
    }
  }

  lemma PushedIndex<K, V, N>(index: map<K, N>, all: seq<N>, s: seq<(K, V)>, key: K, value: V, node: N)
    requires Indexed(index, all, s) && key !in index && s != []
    ensures Indexed(index[key := node], Pushed(all, node), [(key, value)] + s)
  {
    var s', index' := [(key, value)] + s, index[key := node];
    forall j | 0 <= j < |s'|
      ensures s'[j].0 in index' && index'[s'[j].0] == NodeAt(Pushed(all, node), j)
    {
      if j > 0 {
        assert s'[j] == s[j - 1] && s[j - 1].0 in index;
        assert NodeAt(Pushed(all, node), j) == NodeAt(all, j - 1);
      }
    }
    assert s'[0].0 == key;
    forall k <- index'
      ensures Holds(s', k)
    {
      if k != key {
        HoldsMore(s, (key, value), k);
      }
    }
  }

  lemma FirstIndex<K, V, N>(index: map<K, N>, all: seq<N>, all': seq<N>, key: K, value: V, node: N)
    requires Indexed<K, V, N>(index, all, []) && |all'| == 3 && NodeAt(all', 0) == node
    ensures Indexed(index[key := node], all', [(key, value)])
  {
    assert [(key, value)][0].0 == key;
  }

  lemma HoldsMore<K, V>(s: seq<(K, V)>, x: (K, V), key: K)
    requires Holds(s, key)
    ensures Holds([x] + s, key)
  {
    var i :| 0 <= i < |s| && s[i].0 == key;
    assert ([x] + s)[i + 1].0 == key;
  }

  lemma UseAdds<K, V>(s: seq<(K, V)>, key: K, value: V)
    requires !Holds(s, key)
    ensures Use(s, key, value) == [(key, value)] + s
  {
    WithoutAbsent(s, key);
  }

  lemma PoppedIndex<K, V, N>(index: map<K, N>, all: seq<N>, s: seq<(K, V)>)
    requires Indexed(index, all, s) && DistinctKeys(s) && s != []
    ensures Indexed(index - {s[|s| - 1].0}, Popped(all), s[..|s| - 1])
  {
    var n := |s| - 1;
    forall k <- index - {s[n].0}
      ensures Holds(s[..n], k)
    {
      var i :| 0 <= i < |s| && s[i].0 == k;
      assert s[..n][i].0 == k;
    }
    forall i | 0 <= i < n
      ensures NodeAt(Popped(all), i) == NodeAt(all, i)
    {
    }
  }

  // The contents once the extra record, if any, has been evicted.
  lemma EvictionTakes<K, V>(uses: seq<(K, V)>, s: seq<(K, V)>, capacity: nat, key: K, value: V)
    requires s == Use(Take(Recent(uses), capacity), key, value)
    ensures |s| <= capacity + 1 && DistinctKeys(s)
    ensures Take(Recent(uses + [(key, value)]), capacity) == Take(s, capacity)
  {
    var all, one := Recent(uses), uses + [(key, value)];
    RecentIsByLastUse(uses);
    assert one[..|uses|] == uses;
    TakeUse(all, capacity, key, value);
    WithoutShrinksByOne(Take(all, capacity), key);
    UseKeepsDistinct(Take(all, capacity), key, value);
  }

  lemma UseKeepsDistinct<K, V>(s: seq<(K, V)>, key: K, value: V)
    requires DistinctKeys(s)
    ensures DistinctKeys(Use(s, key, value))
  {
    if Holds(s, key) {
      var k :| 0 <= k < |s| && s[k].0 == key;
      WithoutAt(s, k);
    } else {
      WithoutAbsent(s, key);
    }
  }

  // The value of a key that the cache holds is that of its latest use, and using it evicts nothing.
  lemma HitIsLastUse<K, V>(uses: seq<(K, V)>, capacity: nat, k: nat)
    requires k < |Take(Recent(uses), capacity)|
    ensures var s := Take(Recent(uses), capacity);
            && LastUse(uses, s[k].0) >= 0 && uses[LastUse(uses, s[k].0)] == s[k]
            && Take(Recent(uses + [s[k]]), capacity) == Use(s, s[k].0, s[k].1)
  {
    var s := Take(Recent(uses), capacity);
    RecentIsByLastUse(uses);
    EvictionTakes(uses, Use(s, s[k].0, s[k].1), capacity, s[k].0, s[k].1);
    WithoutAt(s, k);
  }

  class LRUCache<K(0,==), V(0)> {
    const capacity: nat
    const data: DualList<(K, V)>
    var index: map<K, Node<(K, V)>>
    ghost var uses: seq<(K, V)>  // every hit and every insertion so far

    ghost predicate Linked()
      reads this, data, data.all
    {
      data.Valid() && Indexed(index, data.all, data.contents)
    }

    /** The cache holds the most recently used records, as many as its capacity allows. */
    ghost predicate Valid()
      reads this, data, data.all
    {
      Linked() && data.contents == Take(Recent(uses), capacity)
    }

    constructor (capacity: nat)
      ensures Valid() && this.capacity == capacity && uses == []
    {
      this.capacity := capacity;
      data := new DualList();
      index, uses := map[], [];
    }

    /** In every state: within capacity, no key twice, and the index finds exactly the keys in the list. */
    lemma Bounded()
      requires Valid()
      ensures data.contents <= Recent(uses)
      ensures data.size == |data.contents| == if |Recent(uses)| < capacity then |Recent(uses)| else capacity
      ensures DistinctKeys(data.contents)
      ensures forall k :: k in index <==> Holds(data.contents, k)
      ensures IsRecent(Recent(uses), uses)
    {
      RecentIsByLastUse(uses);
      IndexedKeysAreDistinct(index, data.all, data.contents);
    }

    // Moves record k to the front, with a value for it.
    method Refresh(key: K, v: V, ghost k: nat)
      requires Linked() && k < |data.contents| && data.contents[k].0 == key
      modifies data`all, data`contents, data.all
      ensures Linked() && data.contents == Use(old(data.contents), key, v)
      ensures forall n <- data.all :: n in old(data.all)
    {
      var node := index[key];
      ghost var s, all := data.contents, data.all;
      IndexedKeysAreDistinct(index, all, s);
      data.SetData(node, (node.data.0, v), k);
      data.MoveFront(node, k);
      MovedIndex(index, all, s, k, v);
      FrontedIsUse(s, k, v);
    }

    /** Get: a hit returns the value of the latest use of the key and is itself a use; a miss changes nothing. */
    method Get(key: K) returns (r: Option<V>)
      requires Valid()
      modifies this`uses, data`all, data`contents, data.all
      ensures Valid() && uses == if r.Some? then old(uses) + [(key, r.value)] else old(uses)
      ensures r.Some? <==> Holds(old(data.contents), key)
      ensures r.Some? ==> LastUse(old(uses), key) >= 0 && old(uses)[LastUse(old(uses), key)] == (key, r.value)
    {
      if key !in index {
        return None;
      }
      ghost var k :| 0 <= k < |data.contents| && data.contents[k].0 == key;
      var value := index[key].data.1;
      HitIsLastUse(uses, capacity, k);
      Refresh(key, value, k);
      r := Some(value);
      uses := uses + [(key, value)];
    }

    // Adds a record that the index does not have.
    method Add(key: K, value: V)
      requires Linked() && key !in index
      modifies this`index, data, data.all
      ensures Linked() && data.contents == Use(old(data.contents), key, value)
      ensures fresh(data.Nodes() - old(data.Nodes()))
    {
      ghost var s, all := data.contents, data.all;
      assert Holds(s, key) ==> key in index;
      var node := data.PushFront((key, value));
      if s == [] {
        FirstIndex(index, all, data.all, key, value, node);
      } else {
        PushedIndex(index, all, s, key, value, node);
      }
      UseAdds(s, key, value);
      index := index[key := node];
    }

    // The first half of Insert: updates the record, or adds one.
    method Put(key: K, value: V)
      requires Linked()
      modifies this`index, data, data.all
      ensures Linked() && data.contents == Use(old(data.contents), key, value)
      ensures fresh(data.Nodes() - old(data.Nodes()))
    {
      if key in index {
        ghost var k :| 0 <= k < |data.contents| && data.contents[k].0 == key;
        Refresh(key, value, k);
      } else {
        Add(key, value);
      }
    }

    // The second half: evicts the record at the back of an overfull list.
    method Evict()
      requires Linked() && DistinctKeys(data.contents) && |data.contents| <= capacity + 1
      modifies this`index, data, data.all
      ensures Linked() && data.contents == Take(old(data.contents), capacity)
    {
      if data.size > capacity {
        DropBack();
      }
    }

    method DropBack()
      requires Linked() && DistinctKeys(data.contents) && data.contents != []
      modifies this`index, data, data.all
      ensures Linked() && data.contents == old(data.contents)[..|old(data.contents)| - 1]
    {
      ghost var s, all := data.contents, data.all;
      var back := data.Back();
      data.PopBack();
      PoppedIndex(index, all, s);
      index := index - {back.0};
    }

    /** Insert is a use of the record; the least recently used record of an overfull cache goes. */
    method Insert(key: K, value: V)
      requires Valid()
      modifies this, data, data.all
      ensures Valid() && uses == old(uses) + [(key, value)]
    {
      ghost var s := data.contents;
      Put(key, value);
      EvictionTakes(uses, Use(s, key, value), capacity, key, value);
      assert forall n <- data.all :: n in data.Nodes();
      Evict();
      uses := uses + [(key, value)];
    }
  }
}
