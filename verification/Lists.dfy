/** Lists of lists. */
module Lists {

  function Flatten<T>(parts: seq<seq<T>>): seq<T> {
    if parts == [] then [] else Flatten(parts[..|parts| - 1]) + parts[|parts| - 1]
  }

  lemma {:induction false} FlattenAppend<T>(a: seq<seq<T>>, b: seq<seq<T>>)
    ensures Flatten(a + b) == Flatten(a) + Flatten(b)
  {
    if b == [] {
      assert a + b == a;
    } else {
      var n := |b| - 1;
      assert (a + b)[..|a| + n] == a + b[..n];
      FlattenAppend(a, b[..n]);
    }
  }

  lemma FlattenOne<T>(a: seq<T>)
    ensures Flatten([a]) == a
  {
    assert [a][..0] == [];
  }

  lemma FlattenMore<T>(parts: seq<seq<T>>, a: seq<T>)
    ensures Flatten(parts + [a]) == Flatten(parts) + a
  {
    assert (parts + [a])[..|parts|] == parts;
  }

  lemma FlattenFirst<T>(parts: seq<seq<T>>)
    requires parts != []
    ensures Flatten(parts) == parts[0] + Flatten(parts[1..])
  {
    assert parts == [parts[0]] + parts[1..];
    FlattenAppend([parts[0]], parts[1..]);
    FlattenOne(parts[0]);
  }

  lemma SplitAt<T>(s: seq<T>, i: nat)
    requires i < |s|
    ensures s[..i] + [s[i]] == s[..i + 1] && s[..i] + [s[i]] + s[i + 1..] == s
  {
  }

  lemma FlattenThree<T>(p: seq<seq<T>>, b: seq<T>, r: seq<seq<T>>)
    ensures Flatten(p + [b]) == Flatten(p) + b
    ensures Flatten(p + [b] + r) == Flatten(p) + b + Flatten(r)
  {
    FlattenMore(p, b);
    FlattenAppend(p + [b], r);
  }

  lemma FlattenAround<T>(parts: seq<seq<T>>, i: nat)
    requires i < |parts|
    ensures Flatten(parts[..i + 1]) == Flatten(parts[..i]) + parts[i]
    ensures Flatten(parts) == Flatten(parts[..i]) + parts[i] + Flatten(parts[i + 1..])
  {
    SplitAt(parts, i);
    FlattenThree(parts[..i], parts[i], parts[i + 1..]);
  }

  // Where a part is in the whole.
  lemma FlattenPart<T>(parts: seq<seq<T>>, i: nat)
    requires i < |parts|
    ensures var at := |Flatten(parts[..i])|;
            && at + |parts[i]| == |Flatten(parts[..i + 1])| <= |Flatten(parts)|
            && Flatten(parts)[at..at + |parts[i]|] == parts[i]
  {
    FlattenAround(parts, i);
  }

  lemma {:induction false} FlattenMember<T>(parts: seq<seq<T>>, x: T) returns (i: nat)
    requires x in Flatten(parts)
    ensures i < |parts| && x in parts[i]
  {
    var n := |parts| - 1;
    if x in parts[n] {
      i := n;
    } else {
      i := FlattenMember(parts[..n], x);
    }
  }

  lemma FlattenHas<T>(parts: seq<seq<T>>, i: nat, x: T)
    requires i < |parts| && x in parts[i]
    ensures x in Flatten(parts)
  {
    FlattenPart(parts, i);
    var at := |Flatten(parts[..i])|;
    assert x in Flatten(parts)[at..at + |parts[i]|];
  }

  /** A list cut into parts as long as those of another list. */
  function SplitLike<A, B>(list: seq<A>, parts: seq<seq<B>>): (r: seq<seq<A>>)
    requires |Flatten(parts)| == |list|
    ensures |r| == |parts|
    decreases |parts|
  {
    if parts == [] then []
    else
      var n := |list| - |parts[|parts| - 1]|;
      SplitLike(list[..n], parts[..|parts| - 1]) + [list[n..]]
  }

  lemma {:induction false} SplitLikeFits<A, B>(list: seq<A>, parts: seq<seq<B>>)
    requires |Flatten(parts)| == |list|
    ensures Flatten(SplitLike(list, parts)) == list
    decreases |parts|
  {
    if parts != [] {
      var n := |list| - |parts[|parts| - 1]|;
      SplitLikeFits(list[..n], parts[..|parts| - 1]);
      FlattenMore(SplitLike(list[..n], parts[..|parts| - 1]), list[n..]);
    }
  }

  lemma {:induction false} SplitLikeAt<A, B>(list: seq<A>, parts: seq<seq<B>>, i: nat)
    requires |Flatten(parts)| == |list| && i < |parts|
    ensures var at := |Flatten(parts[..i])|;
            at + |parts[i]| <= |list| && SplitLike(list, parts)[i] == list[at..at + |parts[i]|]
    decreases |parts|
  {
    var m := |parts| - 1;
    if i < m {
      SplitLikeAt(list[..|list| - |parts[m]|], parts[..m], i);
      assert parts[..m][..i] == parts[..i];
    }
  }
}
