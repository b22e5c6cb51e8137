/** The skip list under a memory table (include/table/skiplist.h), with its nodes in the heap. */
module SkipList {
  import opened InternalEntry
  import opened Order
  import opened Sorted

  class Node {
    const key: Entry
    const next: array<Node?>

    constructor (key: Entry, size: nat)
      ensures this.key == key && next.Length == size && fresh(next)
    {
      this.key := key;
      next := new Node?[size](_ => null);
    }
  }

  // The nodes of ns that have a link at level l, in order.
  ghost function LevelList(ns: seq<Node>, l: nat): (r: seq<Node>)
    ensures forall n <- r :: n in ns && n.next.Length > l
    ensures forall n <- ns :: n.next.Length > l ==> n in r
  {
    if ns == [] then []
    else (if ns[0].next.Length > l then [ns[0]] else []) + LevelList(ns[1..], l)
  }

  ghost function Keys(ns: seq<Node>): (s: seq<Entry>)
    ensures |s| == |ns| && forall i :: 0 <= i < |ns| ==> s[i] == ns[i].key
  {
    seq(|ns|, i requires 0 <= i < |ns| => ns[i].key)
  }

  // Consecutive nodes of list are linked at level l.
  ghost predicate Chain(list: seq<Node>, l: nat)
    reads set n <- list :: n.next
  {
    forall i :: 0 <= i < |list| - 1 ==> list[i].next.Length > l && list[i].next[l] == list[i + 1]
  }

  lemma {:induction false} LevelListConcat(a: seq<Node>, b: seq<Node>, l: nat)
    ensures LevelList(a + b, l) == LevelList(a, l) + LevelList(b, l)
  {
    if a == [] {
      assert a + b == b;
    } else {
      assert (a + b)[1..] == a[1..] + b;
      LevelListConcat(a[1..], b, l);
    }
  }

  ghost predicate Distinct(ns: seq<Node>) {
    forall i, j :: 0 <= i < j < |ns| ==> ns[i].next != ns[j].next
  }

  lemma {:induction false} LevelListDistinct(ns: seq<Node>, l: nat)
    requires Distinct(ns)
    ensures Distinct(LevelList(ns, l))
  {
    if ns != [] {
      LevelListDistinct(ns[1..], l);
      forall n <- LevelList(ns[1..], l)
        ensures n.next != ns[0].next
      {
        assert n in ns[1..];
      }
    }
  }

  lemma SubDistinct(all: seq<Node>)
    requires Distinct(all) && |all| >= 2
    ensures Distinct(all[1..|all| - 1])
  {
  }

  lemma LevelDistinct(head: Node, ns: seq<Node>, tail: Node, l: nat)
    requires Distinct([head] + ns + [tail])
    ensures Distinct([head] + LevelList(ns, l) + [tail])
  {
    SubDistinct([head] + ns + [tail]);
    assert ([head] + ns + [tail])[1..|ns| + 1] == ns;
    LevelListDistinct(ns, l);
    forall n <- LevelList(ns, l)
      ensures n.next != head.next && n.next != tail.next
    {
      assert n in ns;
      var i :| 0 <= i < |ns| && ns[i] == n;
      assert ([head] + ns + [tail])[0] == head && ([head] + ns + [tail])[i + 1] == n;
      assert ([head] + ns + [tail])[|ns| + 1] == tail;
    }
  }

  /** Every level is a sublist of the one below: the nodes of it that are taller. */
  lemma {:induction false} LevelIsSublist(ns: seq<Node>, l: nat)
    ensures LevelList(LevelList(ns, l), l + 1) == LevelList(ns, l + 1)
  {
    if ns != [] {
      LevelIsSublist(ns[1..], l);
      if ns[0].next.Length > l {
        assert LevelList(ns, l)[1..] == LevelList(ns[1..], l);
      } else {
        assert LevelList(ns, l) == LevelList(ns[1..], l);
      }
    }
  }

  lemma {:induction false} LevelListNone(ns: seq<Node>, l: nat)
    requires forall n <- ns :: n.next.Length <= l
    ensures LevelList(ns, l) == []
  {
    if ns != [] {
      LevelListNone(ns[1..], l);
    }
  }

  lemma {:induction false} LevelListAll(ns: seq<Node>, l: nat)
    requires forall n <- ns :: n.next.Length > l
    ensures LevelList(ns, l) == ns
  {
    if ns != [] {
      LevelListAll(ns[1..], l);
    }
  }

  const MAX_LEVELS: nat := 12
  const INVALID: Entry := Entry([], 0, Delete, [])

  // The nodes of level l, from head on, that are smaller than key, and the others up to tail.
  ghost function Lower(head: Node, ns: seq<Node>, key: Entry, l: nat): (r: seq<Node>)
    ensures |r| > 0
  {
    [head] + LevelList(ns[..Rank(Keys(ns), key)], l)
  }

  ghost function Upper(ns: seq<Node>, tail: Node, key: Entry, l: nat): (r: seq<Node>)
    ensures |r| > 0
  {
    LevelList(ns[Rank(Keys(ns), key)..], l) + [tail]
  }

  ghost function Last(s: seq<Node>): Node
    requires |s| > 0
  {
    s[|s| - 1]
  }

  // The search splits every level in two.
  lemma LevelSplits(head: Node, ns: seq<Node>, tail: Node, key: Entry, l: nat)
    ensures [head] + LevelList(ns, l) + [tail] == Lower(head, ns, key, l) + Upper(ns, tail, key, l)
  {
    var p := Rank(Keys(ns), key);
    assert ns == ns[..p] + ns[p..];
    LevelListConcat(ns[..p], ns[p..], l);
    Regroup([head], LevelList(ns[..p], l), LevelList(ns[p..], l), [tail]);
  }

  lemma Regroup(a: seq<Node>, b: seq<Node>, c: seq<Node>, d: seq<Node>)
    ensures a + (b + c) + d == (a + b) + (c + d)
  {
  }

  lemma LowerIsLess(head: Node, ns: seq<Node>, key: Entry, l: nat, k: nat)
    requires 0 < k < |Lower(head, ns, key, l)|
    ensures Lower(head, ns, key, l)[k] in ns && Less(Lower(head, ns, key, l)[k].key, key)
  {
    var p := Rank(Keys(ns), key);
    var n := Lower(head, ns, key, l)[k];
    assert n in LevelList(ns[..p], l);
    assert n in ns[..p];
    var i :| 0 <= i < p && ns[..p][i] == n;
    assert Keys(ns)[i] == n.key;
  }

  lemma UpperIsNotLess(ns: seq<Node>, tail: Node, key: Entry, l: nat)
    requires IsSorted(Keys(ns))
    ensures var n := Upper(ns, tail, key, l)[0]; n == tail || !Less(n.key, key)
  {
    var p := Rank(Keys(ns), key);
    var n := Upper(ns, tail, key, l)[0];
    if n != tail {
      assert n in LevelList(ns[p..], l);
      assert n in ns[p..];
      var i :| 0 <= i < |ns| - p && ns[p..][i] == n;
      RankSplits(Keys(ns), key);
      assert Keys(ns)[p + i] == n.key;
    }
  }

  ghost function InsertNode(ns: seq<Node>, n: Node): seq<Node> {
    ns[..Rank(Keys(ns), n.key)] + [n] + ns[Rank(Keys(ns), n.key)..]
  }

  lemma InsertNodeKeys(ns: seq<Node>, n: Node)
    ensures Keys(InsertNode(ns, n)) == InsertSorted(Keys(ns), n.key)
  {
  }

  // What a level looks like with n among the nodes.
  lemma NewLevel(head: Node, ns: seq<Node>, tail: Node, n: Node, l: nat)
    ensures [head] + LevelList(InsertNode(ns, n), l) + [tail]
            == Joined(Lower(head, ns, n.key, l), n, Upper(ns, tail, n.key, l), l < n.next.Length)
  {
    var p := Rank(Keys(ns), n.key);
    var a, b := LevelList(ns[..p], l), LevelList(ns[p..], l);
    LevelListConcat(ns[..p] + [n], ns[p..], l);
    LevelListConcat(ns[..p], [n], l);
    if l < n.next.Length {
      assert LevelList([n], l) == [n];
      RegroupAround([head], a, [n], b, [tail]);
    } else {
      assert LevelList([n], l) == [] && a + [] == a;
      Regroup([head], a, b, [tail]);
    }
  }

  lemma RegroupAround(a: seq<Node>, b: seq<Node>, x: seq<Node>, c: seq<Node>, d: seq<Node>)
    ensures a + (b + x + c) + d == (a + b) + x + (c + d)
  {
  }

  lemma DistinctInsert(a: seq<Node>, n: Node, b: seq<Node>)
    requires Distinct(a + b) && forall m <- a + b :: m.next != n.next
    ensures Distinct(a + [n] + b)
  {
    assert forall i :: 0 <= i < |a| ==> (a + b)[i] == a[i] && a[i] in a + b;
    assert forall i :: 0 <= i < |b| ==> (a + b)[|a| + i] == b[i] && b[i] in a + b;
  }

  lemma InsertNodeDistinct(head: Node, ns: seq<Node>, tail: Node, n: Node)
    requires Distinct([head] + ns + [tail])
    requires forall m <- [head] + ns + [tail] :: m.next != n.next
    ensures Distinct([head] + InsertNode(ns, n) + [tail])
  {
    var p := Rank(Keys(ns), n.key);
    var a, b := ns[..p], ns[p..];
    assert ns == a + b;
    Regroup([head], a, b, [tail]);
    DistinctInsert([head] + a, n, b + [tail]);
    RegroupAround([head], a, [n], b, [tail]);
  }

  lemma InsertNodeMembers(ns: seq<Node>, n: Node)
    ensures forall m <- InsertNode(ns, n) :: m in ns || m == n
  {
  }

  lemma ChainParts(lower: seq<Node>, upper: seq<Node>, l: nat)
    requires |lower| > 0 && |upper| > 0 && Chain(lower + upper, l)
    ensures Chain(lower, l) && Chain(upper, l)
    ensures Last(lower).next.Length > l && Last(lower).next[l] == upper[0]
  {
    var list := lower + upper;
    assert forall i :: 0 <= i < |lower| ==> list[i] == lower[i];
    assert forall i :: 0 <= i < |upper| ==> list[|lower| + i] == upper[i];
  }

  // A list with a node linked in between its two parts.
  lemma ChainWithNew(lower: seq<Node>, n: Node, upper: seq<Node>, l: nat)
    requires |lower| > 0 && |upper| > 0
    requires Chain(lower, l) && Chain(upper, l)
    requires Last(lower).next.Length > l && Last(lower).next[l] == n
    requires n.next.Length > l && n.next[l] == upper[0]
    ensures Chain(lower + [n] + upper, l)
  {
  }

  lemma LastIsNode(lower: seq<Node>, upper: seq<Node>)
    requires |lower| > 0
    ensures Last(lower) in lower + upper
  {
    assert (lower + upper)[|lower| - 1] == Last(lower);
  }

  // `new_node->next_[i] = last_node_[i]->next_[i]; last_node_[i]->next_[i] = new_node`
  // The chains of the other levels stay as they are.
  method LinkBetween(last: Node, n: Node, l: nat, ghost lower: seq<Node>, ghost upper: seq<Node>,
                     ghost lists: seq<seq<Node>>)
    requires |lower| > 0 && |upper| > 0 && last == Last(lower) && n.next.Length > l
    requires Distinct(lower + upper) && Chain(lower + upper, l)
    requires forall m <- lower + upper :: m.next != n.next
    modifies n.next, last.next
    ensures Chain(lower + [n] + upper, l)
    ensures forall k | 0 <= k < |lists| && k != l :: old(Chain(lists[k], k)) ==> Chain(lists[k], k)
  {
    ChainParts(lower, upper, l);
    assert forall i :: 0 <= i < |lower| ==> (lower + upper)[i] == lower[i];
    assert forall i :: 0 <= i < |upper| ==> (lower + upper)[|lower| + i] == upper[i];
    n.next[l] := last.next[l];
    last.next[l] := n;
    ChainWithNew(lower, n, upper, l);
  }

  // Two parts of a level, with n linked in between or not.
  ghost function Joined(lower: seq<Node>, n: Node, upper: seq<Node>, linked: bool): seq<Node> {
    if linked then lower + [n] + upper else lower + upper
  }

  // Level l, once n is linked on the levels below `from`.
  ghost predicate LevelLinked(lower: seq<Node>, n: Node, upper: seq<Node>, from: nat, l: nat)
    reads set m <- lower + [n] + upper :: m.next
  {
    Chain(Joined(lower, n, upper, l < from), l)
  }

  /** The linking loop of Insert: lowers and uppers are the levels as the search split them. */
  method LinkLevels(lastNode: array<Node?>, n: Node, level: nat,
                    ghost lowers: seq<seq<Node>>, ghost uppers: seq<seq<Node>>)
    requires |lowers| == |uppers| == MAX_LEVELS && level < MAX_LEVELS <= lastNode.Length
    requires n.next.Length == level + 1 && n.next != lastNode
    requires forall l :: 0 <= l < MAX_LEVELS ==>
               |lowers[l]| > 0 && |uppers[l]| > 0 && Distinct(lowers[l] + uppers[l])
    requires forall l :: 0 <= l < MAX_LEVELS ==> Chain(lowers[l] + uppers[l], l)
    requires forall l :: 0 <= l <= level ==> lastNode[l] == Last(lowers[l])
    requires forall l, m | 0 <= l < MAX_LEVELS && m in lowers[l] + uppers[l] :: m.next != n.next && m.next != lastNode
    modifies n.next, set l, m | 0 <= l < MAX_LEVELS && m in lowers[l] :: m.next
    ensures forall l :: 0 <= l < MAX_LEVELS ==> LevelLinked(lowers[l], n, uppers[l], level + 1, l)
  {
    for i := 0 to level + 1
      invariant forall l :: 0 <= l < MAX_LEVELS ==> LevelLinked(lowers[l], n, uppers[l], i, l)
      invariant forall l :: 0 <= l <= level ==> lastNode[l] == Last(lowers[l])
    {
      ghost var lists := seq(MAX_LEVELS, l requires 0 <= l < MAX_LEVELS => Joined(lowers[l], n, uppers[l], l < i));
      assert LevelLinked(lowers[i], n, uppers[i], i, i);
      LastIsNode(lowers[i], uppers[i]);
      LinkBetween(lastNode[i], n, i, lowers[i], uppers[i], lists);
      ghost var from := i + 1;
      forall l | 0 <= l < MAX_LEVELS
        ensures LevelLinked(lowers[l], n, uppers[l], from, l)
      {
        assert l != i ==> lists[l] == Joined(lowers[l], n, uppers[l], l < from);
      }
    }
  }

  // All levels of a list, as the search for key splits them.
  ghost function Lowers(head: Node, ns: seq<Node>, key: Entry): (r: seq<seq<Node>>)
    ensures |r| == MAX_LEVELS && forall l :: 0 <= l < MAX_LEVELS ==> r[l] == Lower(head, ns, key, l)
  {
    seq(MAX_LEVELS, l requires 0 <= l < MAX_LEVELS => Lower(head, ns, key, l))
  }

  ghost function Uppers(ns: seq<Node>, tail: Node, key: Entry): (r: seq<seq<Node>>)
    ensures |r| == MAX_LEVELS && forall l :: 0 <= l < MAX_LEVELS ==> r[l] == Upper(ns, tail, key, l)
  {
    seq(MAX_LEVELS, l requires 0 <= l < MAX_LEVELS => Upper(ns, tail, key, l))
  }

  lemma PartsAreNodes(head: Node, ns: seq<Node>, tail: Node, key: Entry, lowers: seq<seq<Node>>, uppers: seq<seq<Node>>)
    requires Distinct([head] + ns + [tail])
    requires lowers == Lowers(head, ns, key) && uppers == Uppers(ns, tail, key)
    ensures forall l :: 0 <= l < MAX_LEVELS ==> lowers[l] + uppers[l] == [head] + LevelList(ns, l) + [tail]
    ensures forall l, m | 0 <= l < MAX_LEVELS && m in lowers[l] + uppers[l] :: m in [head] + ns + [tail]
    ensures forall l :: 0 <= l < MAX_LEVELS ==>
              |lowers[l]| > 0 && |uppers[l]| > 0 && Distinct(lowers[l] + uppers[l])
  {
    forall l | 0 <= l < MAX_LEVELS
      ensures lowers[l] + uppers[l] == [head] + LevelList(ns, l) + [tail] && Distinct(lowers[l] + uppers[l])
      ensures forall m <- lowers[l] + uppers[l] :: m in [head] + ns + [tail]
    {
      LevelSplits(head, ns, tail, key, l);
      LevelDistinct(head, ns, tail, l);
    }
  }

  // The levels with n linked in are the levels of the list with n inserted.
  lemma NewLevels(head: Node, ns: seq<Node>, tail: Node, n: Node, lowers: seq<seq<Node>>, uppers: seq<seq<Node>>)
    requires lowers == Lowers(head, ns, n.key) && uppers == Uppers(ns, tail, n.key)
    requires forall l :: 0 <= l < MAX_LEVELS ==> LevelLinked(lowers[l], n, uppers[l], n.next.Length, l)
    ensures forall l :: 0 <= l < MAX_LEVELS ==> Chain([head] + LevelList(InsertNode(ns, n), l) + [tail], l)
  {
    forall l | 0 <= l < MAX_LEVELS
      ensures Chain([head] + LevelList(InsertNode(ns, n), l) + [tail], l)
    {
      NewLevel(head, ns, tail, n, l);
      assert LevelLinked(lowers[l], n, uppers[l], n.next.Length, l);
    }
  }

  // A node that is on a level is on the one below.
  lemma Descend(head: Node, ns: seq<Node>, key: Entry, l: nat) returns (k: nat)
    requires l > 0
    ensures k < |Lower(head, ns, key, l - 1)|
    ensures Lower(head, ns, key, l - 1)[k] == Last(Lower(head, ns, key, l))
  {
    var lower := ns[..Rank(Keys(ns), key)];
    var above, below := LevelList(lower, l), LevelList(lower, l - 1);
    if above == [] {
      k := 0;
    } else {
      var n := above[|above| - 1];
      assert n in above;
      var i :| 0 <= i < |below| && below[i] == n;
      k := i + 1;
    }
  }

  class SkipList {
    var levels: nat
    var size: nat
    const head: Node
    const tail: Node
    const lastNode: array<Node?>
    ghost var nodes: seq<Node>

    ghost function All(): seq<Node>
      reads this
    {
      [head] + nodes + [tail]
    }

    // The link arrays of all nodes.
    ghost function Links(): set<object>
      reads this
    {
      set n <- All() :: n.next
    }

    // Level l from head to tail.
    ghost function Level(l: nat): seq<Node>
      reads this
    {
      [head] + LevelList(nodes, l) + [tail]
    }

    ghost predicate Shape()
      reads this
    {
      && levels < MAX_LEVELS && size == |nodes|
      && head.next.Length == MAX_LEVELS + 1 && tail.next.Length == 0 && lastNode.Length == MAX_LEVELS + 1
      && head.key == INVALID
      && (forall n <- nodes :: 0 < n.next.Length <= levels + 1)
      && Distinct(All())
      && (forall n <- All() :: n.next != lastNode)
      && IsSorted(Keys(nodes))
    }

    ghost predicate Linked()
      reads this, Links()
    {
      forall l :: 0 <= l < MAX_LEVELS ==> Chain(Level(l), l)
    }

    /** Every level is a list from head to tail, the levels are sublists of one another, and the
        bottom one is sorted. */
    ghost predicate Valid()
      reads this, Links()
    {
      Shape() && Linked()
    }

    ghost function Entries(): seq<Entry>
      reads this
    {
      Keys(nodes)
    }

    constructor ()
      ensures Valid() && fresh(Links() + {lastNode}) && Entries() == []
      ensures levels == 0 && head.next.Length == lastNode.Length == 13
    {
      levels, size, nodes := 0, 0, [];
      head := new Node(INVALID, MAX_LEVELS + 1);
      tail := new Node(INVALID, 0);
      lastNode := new Node?[MAX_LEVELS + 1](_ => null);
      new;
      for i := 0 to MAX_LEVELS
        modifies head.next
        invariant forall l :: 0 <= l < i ==> head.next[l] == tail
      {
        head.next[i] := tail;
      }
      assert All() == [head, tail];
      forall l | 0 <= l < MAX_LEVELS
        ensures Chain(Level(l), l)
      {
        assert Level(l) == [head, tail];
      }
    }

    // One step to the right on level l, as the loops of Search and Get test it.
    method Step(before: Node, key: Entry, l: nat, ghost k: nat) returns (next: Node, ok: bool)
      requires Valid() && l <= levels
      requires k < |Lower(head, nodes, key, l)| && before == Lower(head, nodes, key, l)[k]
      ensures ok <==> k + 1 < |Lower(head, nodes, key, l)|
      ensures ok ==> next == Lower(head, nodes, key, l)[k + 1]
    {
      LevelSplits(head, nodes, tail, key, l);
      assert Chain(Level(l), l);
      assert Level(l)[k] == before;
      var link := before.next[l];
      assert link == Level(l)[k + 1];
      next := link;
      if k + 1 < |Lower(head, nodes, key, l)| {
        LowerIsLess(head, nodes, key, l, k + 1);
      } else {
        UpperIsNotLess(nodes, tail, key, l);
      }
      ok := next != tail && Less(next.key, key);
    }

    method Walk(start: Node, key: Entry, l: nat, ghost from: nat) returns (before: Node)
      requires Valid() && l <= levels
      requires from < |Lower(head, nodes, key, l)| && start == Lower(head, nodes, key, l)[from]
      ensures before == Last(Lower(head, nodes, key, l))
    {
      ghost var k := from;
      before := start;
      var next, ok := Step(before, key, l, k);
      while ok
        invariant k < |Lower(head, nodes, key, l)| && before == Lower(head, nodes, key, l)[k]
        invariant ok <==> k + 1 < |Lower(head, nodes, key, l)|
        invariant ok ==> next == Lower(head, nodes, key, l)[k + 1]
        decreases |Lower(head, nodes, key, l)| - k
      {
        before, k := next, k + 1;
        next, ok := Step(before, key, l, k);
      }
    }

    method Remember(l: nat, before: Node)
      requires Valid() && l <= levels
      modifies lastNode
      ensures Valid()
      ensures lastNode[l] == before
      ensures forall i :: 0 <= i < lastNode.Length && i != l ==> lastNode[i] == old(lastNode[i])
    {
      lastNode[l] := before;
    }

    /** SkipList::Search: remembers in lastNode where the search leaves every level. */
    method Search(key: Entry)
      requires Valid()
      modifies lastNode
      ensures Valid()
      ensures forall l :: 0 <= l <= levels ==> lastNode[l] == Last(Lower(head, nodes, key, l))
    {
      var before := head;
      ghost var k: nat := 0;
      for i := levels + 1 downto 0
        invariant Valid()
        invariant i > 0 ==> k < |Lower(head, nodes, key, i - 1)| && before == Lower(head, nodes, key, i - 1)[k]
        invariant forall l :: i <= l <= levels ==> lastNode[l] == Last(Lower(head, nodes, key, l))
      {
        before := Walk(before, key, i, k);
        Remember(i, before);
        if i > 0 {
          k := Descend(head, nodes, key, i);
        }
      }
    }

    // Above the levels of the nodes there is only head.
    lemma EmptyLevel(key: Entry, l: nat)
      requires Shape() && l > levels
      ensures Lower(head, nodes, key, l) == [head]
    {
      LevelListNone(nodes[..Rank(Keys(nodes), key)], l);
    }

    // `++levels_`
    method OpenLevel()
      requires Valid() && levels + 1 < MAX_LEVELS
      modifies this`levels
      ensures Valid() && levels == old(levels) + 1
    {
      assert forall l :: 0 <= l < MAX_LEVELS ==> Chain(Level(l), l);
      levels := levels + 1;
      assert forall l :: 0 <= l < MAX_LEVELS ==> Level(l) == old(Level(l)) && Chain(Level(l), l);
    }

    // The level of a new node; opens one level at most.
    method ChooseLevel(key: Entry, randomLevel: nat) returns (level: nat)
      requires Valid()
      requires randomLevel > levels ==> levels + 1 < MAX_LEVELS
      modifies this`levels, lastNode
      ensures Valid() && level <= levels
      ensures level == if randomLevel > old(levels) then old(levels) + 1 else randomLevel
      ensures levels == if randomLevel > old(levels) then old(levels) + 1 else old(levels)
      ensures forall l :: 0 <= l <= level ==> lastNode[l] == Last(Lower(head, nodes, key, l))
    {
      Search(key);
      level := randomLevel;
      if level > levels {
        EmptyLevel(key, levels + 1);
        OpenLevel();
        level := levels;
        Remember(level, head);
      }
    }

    // The levels as the search for n splits them, and what the linking loop needs to know of them.
    lemma SplitLevels(n: Node, lowers: seq<seq<Node>>, uppers: seq<seq<Node>>)
      requires Valid() && forall m <- All() :: m.next != n.next
      requires lowers == Lowers(head, nodes, n.key) && uppers == Uppers(nodes, tail, n.key)
      ensures forall l :: 0 <= l < MAX_LEVELS ==>
                |lowers[l]| > 0 && |uppers[l]| > 0 && Distinct(lowers[l] + uppers[l])
      ensures forall l :: 0 <= l < MAX_LEVELS ==> Chain(lowers[l] + uppers[l], l)
      ensures forall l, m | 0 <= l < MAX_LEVELS && m in lowers[l] + uppers[l] ::
                m.next != n.next && m.next != lastNode && m.next in Links()
    {
      PartsAreNodes(head, nodes, tail, n.key, lowers, uppers);
      forall l | 0 <= l < MAX_LEVELS
        ensures Chain(lowers[l] + uppers[l], l)
      {
        assert Chain(Level(l), l);
      }
    }

    // Links n on its levels, behind the nodes the search remembered.
    method Link(n: Node)
      requires Valid() && 0 < n.next.Length <= levels + 1
      requires n.next != lastNode && forall m <- All() :: m.next != n.next
      requires forall l :: 0 <= l < n.next.Length ==> lastNode[l] == Last(Lower(head, nodes, n.key, l))
      modifies n.next, Links()
      ensures forall l :: 0 <= l < MAX_LEVELS ==> Chain([head] + LevelList(InsertNode(nodes, n), l) + [tail], l)
    {
      ghost var lowers, uppers := Lowers(head, nodes, n.key), Uppers(nodes, tail, n.key);
      SplitLevels(n, lowers, uppers);
      forall l: nat, m: Node | 0 <= l < MAX_LEVELS && m in lowers[l]
        ensures m.next in Links()
      {
        assert m in lowers[l] + uppers[l];
      }
      LinkLevels(lastNode, n, n.next.Length - 1, lowers, uppers);
      NewLevels(head, nodes, tail, n, lowers, uppers);
    }

    // The linked node n joins the list.
    method Adopt(ghost n: Node)
      requires Shape() && 0 < n.next.Length <= levels + 1
      requires forall m <- All() :: m.next != n.next
      requires n.next != lastNode
      requires forall l :: 0 <= l < MAX_LEVELS ==> Chain([head] + LevelList(InsertNode(nodes, n), l) + [tail], l)
      modifies this`nodes, this`size
      ensures Valid() && Entries() == InsertSorted(old(Entries()), n.key)
      ensures nodes == InsertNode(old(nodes), n)
      ensures forall m <- All() :: m in old(All()) || m == n
    {
      InsertNodeKeys(nodes, n);
      InsertKeepsSorted(Keys(nodes), n.key);
      InsertNodeDistinct(head, nodes, tail, n);
      InsertNodeMembers(nodes, n);
      size := size + 1;
      nodes := InsertNode(nodes, n);
    }

    // A new node on the levels up to that one, behind the nodes the search remembered.
    method Place(key: Entry, level: nat) returns (newNode: Node)
      requires Valid() && level <= levels
      requires forall l :: 0 <= l <= level ==> lastNode[l] == Last(Lower(head, nodes, key, l))
      modifies this`nodes, this`size, Links()
      ensures Valid() && fresh(Links() - old(Links()))
      ensures Entries() == InsertSorted(old(Entries()), key)
      ensures newNode.key == key && newNode.next.Length == level + 1 && nodes == InsertNode(old(nodes), newNode)
    {
      newNode := new Node(key, level + 1);
      Link(newNode);
      Adopt(newNode);
    }

    /** SkipList::Insert, where randomLevel is what RandomLevel returned. The link of head above the
        last level is never initialised, so the list must not grow to it. */
    method Insert(key: Entry, randomLevel: nat) returns (ghost n: Node)
      requires Valid() && key.key != []
      requires randomLevel > levels ==> levels + 1 < MAX_LEVELS
      modifies this, lastNode, Links()
      ensures Valid() && fresh(Links() - old(Links()))
      ensures Entries() == InsertSorted(old(Entries()), key)
      ensures levels == if randomLevel > old(levels) then old(levels) + 1 else old(levels)
      ensures n.key == key && nodes == InsertNode(old(nodes), n)
      ensures n.next.Length == 1 + if randomLevel > old(levels) then old(levels) + 1 else randomLevel
    {
      var level := ChooseLevel(key, randomLevel);
      n := Place(key, level);
    }

    // The descent of Get: ends at the last node smaller than key.
    method FindBefore(key: Entry) returns (before: Node)
      requires Valid()
      ensures before == Last(Lower(head, nodes, key, 0))
    {
      before := head;
      ghost var k: nat := 0;
      for i := levels + 1 downto 0
        invariant i > 0 ==> k < |Lower(head, nodes, key, i - 1)| && before == Lower(head, nodes, key, i - 1)[k]
        invariant i == 0 ==> before == Last(Lower(head, nodes, key, 0))
      {
        before := Walk(before, key, i, k);
        if i > 0 {
          k := Descend(head, nodes, key, i);
        }
      }
    }

    /** SkipList::Get: the last node smaller than key, when it carries the same user key. */
    method Get(key: Entry) returns (node: Node?)
      requires Valid() && key.key != []
      ensures var p := Rank(Entries(), key);
              node == if p > 0 && nodes[p - 1].key.key == key.key then nodes[p - 1] else null
    {
      var before := FindBefore(key);
      LevelListAll(nodes[..Rank(Entries(), key)], 0);
      if before.key.key == key.key {
        return before;
      }
      return null;
    }

    lemma OnlyTailIsLast(i: nat)
      requires Shape() && i <= |nodes|
      ensures All()[i + 1] == tail <==> i == |nodes|
    {
    }

    // The bottom level links all nodes.
    lemma BottomLevel()
      requires Valid()
      ensures Chain(All(), 0)
    {
      LevelListAll(nodes, 0);
      assert Chain(Level(0), 0);
    }

    /** SkipList::EntrySet. */
    method EntrySet() returns (ret: seq<Entry>)
      requires Valid()
      ensures ret == Entries()
    {
      ghost var all := All();
      BottomLevel();
      ret := [];
      assert all[0] == head;
      var p := head.next[0];
      ghost var i: nat := 0;
      while p != tail
        invariant i <= |nodes| && p == all[i + 1]
        invariant ret == Keys(nodes)[..i]
        decreases |nodes| - i
      {
        OnlyTailIsLast(i);
        assert p.next[0] == all[i + 2];
        ret := ret + [p.key];
        i := i + 1;
        p := p.next[0];
      }
      OnlyTailIsLast(i);
    }
  }
}
