/** Sorted sequences of entries: what the skip list keeps and the merge produces. */
module Sorted {
  import opened InternalEntry
  import opened Order

  predicate IsSorted(s: seq<Entry>) {
    forall i, j :: 0 <= i < j < |s| ==> LessEq(s[i], s[j])
  }

  predicate StrictlySorted(s: seq<Entry>) {
    forall i, j :: 0 <= i < j < |s| ==> Less(s[i], s[j])
  }

  /** How many leading entries are smaller than e. */
  function Rank(s: seq<Entry>, e: Entry): (p: nat)
    ensures p <= |s|
    ensures forall i :: 0 <= i < p ==> Less(s[i], e)
    ensures p < |s| ==> !Less(s[p], e)
  {
    if s == [] || !Less(s[0], e) then 0 else 1 + Rank(s[1..], e)
  }

  lemma RankSplits(s: seq<Entry>, e: Entry)
    requires IsSorted(s)
    ensures forall i :: 0 <= i < |s| ==> (Less(s[i], e) <==> i < Rank(s, e))
  {
    var p := Rank(s, e);
    forall i | p < i < |s|
      ensures !Less(s[i], e)
    {
      LessEqTransitive(e, s[p], s[i]);
    }
  }

  function InsertSorted(s: seq<Entry>, e: Entry): seq<Entry> {
    s[..Rank(s, e)] + [e] + s[Rank(s, e)..]
  }

  lemma BetweenIsSorted(s: seq<Entry>, p: nat, e: Entry)
    requires IsSorted(s) && p <= |s| && (forall i :: 0 <= i < p ==> LessEq(s[i], e))
    requires forall i :: p <= i < |s| ==> LessEq(e, s[i])
    ensures IsSorted(s[..p] + [e] + s[p..])
  {
    var t := s[..p] + [e] + s[p..];
    forall i, j | 0 <= i < j < |t|
      ensures LessEq(t[i], t[j])
    {
      if i != p && j != p {
        assert t[i] == s[if i < p then i else i - 1] && t[j] == s[if j < p then j else j - 1];
      }
    }
  }

  lemma AroundRank(s: seq<Entry>, e: Entry)
    requires IsSorted(s)
    ensures forall i :: 0 <= i < Rank(s, e) ==> LessEq(s[i], e)
    ensures forall i :: Rank(s, e) <= i < |s| ==> LessEq(e, s[i])
  {
    RankSplits(s, e);
    forall i | 0 <= i < Rank(s, e)
      ensures LessEq(s[i], e)
    {
      LessEqTotal(s[i], e);
    }
  }

  lemma InsertKeepsSorted(s: seq<Entry>, e: Entry)
    requires IsSorted(s)
    ensures IsSorted(InsertSorted(s, e))
    ensures multiset(InsertSorted(s, e)) == multiset(s) + multiset{e}
  {
    var p := Rank(s, e);
    AroundRank(s, e);
    BetweenIsSorted(s, p, e);
    OneMore(s, p, e);
  }

  lemma OneMore(s: seq<Entry>, p: nat, e: Entry)
    requires p <= |s|
    ensures multiset(s[..p] + [e] + s[p..]) == multiset(s) + multiset{e}
  {
    assert s == s[..p] + s[p..];
  }

  /** The sorted form of a log of insertions. */
  function InsertAll(log: seq<Entry>): seq<Entry> {
    if log == [] then [] else InsertSorted(InsertAll(log[..|log| - 1]), log[|log| - 1])
  }

  /** Any sequence of insertions leaves exactly the inserted entries, in order. */
  lemma {:induction false} InsertAllSorts(log: seq<Entry>)
    ensures IsSorted(InsertAll(log))
    ensures multiset(InsertAll(log)) == multiset(log)
  {
    if log != [] {
      InsertAllSorts(log[..|log| - 1]);
      InsertKeepsSorted(InsertAll(log[..|log| - 1]), log[|log| - 1]);
      assert log == log[..|log| - 1] + [log[|log| - 1]];
    }
  }
}
