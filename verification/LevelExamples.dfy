/** Inputs on which a compaction leaves the next level out of order, and one on which it then drops a file. */
module LevelExamples {
  import opened Lists
  import opened InternalEntry
  import opened Order
  import opened Sorted
  import opened MergeOutput
  import opened Levels
  import opened Lookup
  import opened LevelSearch

  // The n-th of some keys in ascending order: 1, 11, 111, ...
  function Nth(n: nat): Entry {
    Entry(seq(n + 1, _ => 1), n, Insert, [])
  }

  lemma {:induction false} KeysAscend(i: nat, j: nat)
    requires i < j
    ensures KeyLess(Nth(i).key, Nth(j).key)
  {
    var a, b := Nth(i).key, Nth(j).key;
    if i > 0 {
      KeysAscend(i - 1, j - 1);
      assert a[1..] == Nth(i - 1).key && b[1..] == Nth(j - 1).key;
    } else {
      assert a[1..] == [];
    }
  }

  lemma Ascend(i: nat, j: nat)
    ensures Less(Nth(i), Nth(j)) <==> i < j
  {
    LessIsStrictOrder(Nth(i), Nth(j), Nth(i));
    if i < j {
      KeysAscend(i, j);
    } else if j < i {
      KeysAscend(j, i);
    }
  }

  lemma TwoFiles(f: File, g: File)
    ensures Flatten([f, g]) == f + g
  {
    assert [f, g] == [f] + [g];
    FlattenMore([f], g);
    FlattenOne(f);
  }

  /** A file between the two files of the next level is pushed behind both. */
  lemma MiddleGap()
    ensures var fs, e := [[Nth(0)], [Nth(2)]], Nth(1);
            && SortedLevel(fs) && InMiddle(fs, e, e) && Range(fs, e, e) == (2, 2)
            && !SortedLevel(fs[..2] + [[e]] + fs[2..])
  {
    var fs, e := [[Nth(0)], [Nth(2)]], Nth(1);
    GapLevel(fs, e);
    RangeIsCut(fs, e, e);
    SingleFile(e);
    FlattenOne([e]);
    NewLevelSorted(fs, e, e, [[e]]);
  }

  lemma GapLevel(fs: seq<File>, e: Entry)
    requires fs == [[Nth(0)], [Nth(2)]] && e == Nth(1)
    ensures SortedLevel(fs) && InMiddle(fs, e, e) && LessEq(e, e)
  {
    TwoFiles([Nth(0)], [Nth(2)]);
    Ascend(0, 2);
    Ascend(0, 1);
    Ascend(1, 2);
    LessEqTotal(e, e);
    assert Below(fs[0], e) && Above(fs[1], e);
  }

  lemma SingleFile(e: Entry)
    ensures SortedLevel([[e]])
  {
    FlattenOne([e]);
  }

  lemma Hulls()
    ensures IsHull([[Nth(0), Nth(2)]], Nth(0), Nth(2))
    ensures IsHull([[Nth(0), Nth(2)], [Nth(1), Nth(4)]], Nth(0), Nth(4))
  {
    var f, g := [Nth(0), Nth(2)], [Nth(1), Nth(4)];
    Ascend(0, 0);
    Ascend(2, 2);
    Ascend(1, 0);
    Ascend(4, 2);
    Ascend(4, 4);
    assert f in [f] && f in [f, g] && g in [f, g];
  }

  /** A level 0 file that overlaps the group [0, 2] and reaches past it, to 4, is taken along. But the
      file [3] of level 1 is not merged, as it does not overlap the group. */
  lemma LevelZeroRange()
    ensures var zero, one := [[Nth(0), Nth(2)], [Nth(1), Nth(4)]], [[Nth(3)]];
            && IsHull([zero[0]], Nth(0), Nth(2)) && Removed(zero, 0, 1, Nth(0), Nth(2)) == [0, 1]
            && IsHull(zero, Nth(0), Nth(4))
            && SortedLevel(one) && Range(one, Nth(0), Nth(2)) == (0, 0)
            && !Fits(one, Nth(0), Nth(4), 0, 0)
  {
    Hulls();
    SingleFile(Nth(3));
    ZeroScan([[Nth(0), Nth(2)], [Nth(1), Nth(4)]], [[Nth(3)]]);
  }

  /** So the merge of the two level 0 files is put before it, and level 1 is out of order. */
  lemma LevelZeroUnsorted()
    ensures var zero, one, order := [[Nth(0), Nth(2)], [Nth(1), Nth(4)]], [[Nth(3)]], [Nth(0), Nth(1), Nth(2), Nth(4)];
            && IsSorted(order) && multiset(order) == multiset(Flatten(zero))
            && Finish(Fold(order)) == [order]
            && !SortedLevel(one[..0] + Finish(Fold(order)) + one[0..])
  {
    ZeroMerge();
    TwoFiles([Nth(0), Nth(2)], [Nth(1), Nth(4)]);
    NotBehind();
  }

  // What the scans of both levels find.
  lemma ZeroScan(zero: seq<File>, one: seq<File>)
    requires zero == [[Nth(0), Nth(2)], [Nth(1), Nth(4)]] && one == [[Nth(3)]]
    ensures Removed(zero, 0, 1, Nth(0), Nth(2)) == [0, 1] && Range(one, Nth(0), Nth(2)) == (0, 0)
    ensures !Fits(one, Nth(0), Nth(4), 0, 0)
  {
    Ascend(4, 0);
    Ascend(2, 1);
    Ascend(3, 0);
    Ascend(2, 3);
    Ascend(4, 3);
    assert Overlaps(zero[1], Nth(0), Nth(2));
    assert Selected(zero, 1, Nth(0), Nth(2), 2) == [1];
    assert Interval(0, 1) == [0];
    assert Stop(one, Nth(0), Nth(2), 0) == 0;
  }

  lemma SizeOfNth(n: nat)
    requires n < 100
    ensures SizeOf(Nth(n)) == n + 12
  {
  }

  lemma KeyLengths(i: nat, j: nat)
    requires i != j
    ensures Nth(i).key != Nth(j).key
  {
    assert |Nth(i).key| == i + 1 && |Nth(j).key| == j + 1;
  }

  lemma SortedFour(a: Entry, b: Entry, c: Entry, d: Entry)
    requires Less(a, b) && Less(b, c) && Less(c, d)
    ensures IsSorted([a, b, c, d])
  {
    LessIsStrictOrder(a, b, c);
    LessIsStrictOrder(b, c, d);
    LessIsStrictOrder(a, c, d);
    LessEqTotal(a, b);
    LessEqTotal(a, c);
    LessEqTotal(a, d);
    LessEqTotal(b, c);
    LessEqTotal(b, d);
    LessEqTotal(c, d);
  }

  // The merge of level 0.
  lemma ZeroMerge()
    ensures var order := [Nth(0), Nth(1), Nth(2), Nth(4)];
            IsSorted(order) && Finish(Fold(order)) == [order]
  {
    var order := [Nth(0), Nth(1), Nth(2), Nth(4)];
    Ascend(0, 1);
    Ascend(1, 2);
    Ascend(2, 4);
    SortedFour(Nth(0), Nth(1), Nth(2), Nth(4));
    FourSizes(Nth(0), Nth(1), Nth(2), Nth(4));
    SizeOfNth(0);
    SizeOfNth(1);
    SizeOfNth(2);
    SizeOfNth(4);
    assert forall i :: 0 <= i < 4 ==> |order[i].key| == if i == 3 then 5 else i + 1;
    FewEntries(order);
  }

  lemma FourSizes(a: Entry, b: Entry, c: Entry, d: Entry)
    ensures TotalSize([a, b, c, d]) == SizeOf(a) + SizeOf(b) + SizeOf(c) + SizeOf(d)
  {
    OneMoreSize([], a);
    OneMoreSize([a], b);
    OneMoreSize([a, b], c);
    OneMoreSize([a, b, c], d);
    assert [] + [a] == [a];
    assert [a] + [b] == [a, b];
    assert [a, b] + [c] == [a, b, c];
    assert [a, b, c] + [d] == [a, b, c, d];
  }

  lemma NotBehind()
    ensures var one, order := [[Nth(3)]], [Nth(0), Nth(1), Nth(2), Nth(4)];
            !SortedLevel(one[..0] + [order] + one[0..])
  {
    var one, order := [[Nth(3)]], [Nth(0), Nth(1), Nth(2), Nth(4)];
    var level := one[..0] + [order] + one[0..];
    assert level == [order, [Nth(3)]];
    TwoFiles(order, [Nth(3)]);
    Ascend(4, 3);
    var all := Flatten(level);
    assert all == order + [Nth(3)];
    assert |all| == 5 && all[3] == Nth(4) && all[4] == Nth(3);
    LastOutOfOrder(all);
    assert !StrictlySorted(Flatten(level));
    assert !SortedLevel(level);
  }

  lemma LastOutOfOrder(s: seq<Entry>)
    requires |s| == 5 && !Less(s[3], s[4])
    ensures !StrictlySorted(s)
  {
  }

  /** How a file gets lost. [1] is pushed to the back of the sorted level [0], [3], and [5] behind it.
      Then the range [2, 6] selects [3] and [5], with [1] between them: it leaves the manifest without
      having been merged. */
  lemma DroppedFile()
    ensures Range([[Nth(0)], [Nth(3)]], Nth(1), Nth(1)) == (2, 2)
    ensures Range([[Nth(0)], [Nth(3)], [Nth(1)]], Nth(5), Nth(5)) == (3, 3)
    ensures var fs := [[Nth(0)], [Nth(3)], [Nth(1)], [Nth(5)]];
            && Overlapping(fs, Nth(2), Nth(6)) == [1, 3] && Range(fs, Nth(2), Nth(6)) == (1, 4)
            && Skipped(fs, Nth(2), 1, 4) == [2]
  {
    PushedToBack();
    var fs := [[Nth(0)], [Nth(3)], [Nth(1)], [Nth(5)]];
    var lo, hi := Nth(2), Nth(6);
    Ascend(0, 2);
    Ascend(3, 2);
    Ascend(1, 2);
    Ascend(5, 2);
    Ascend(6, 3);
    Ascend(6, 5);
    assert Below(fs[0], lo) && Below(fs[2], lo) && !Below(fs[1], lo) && !Below(fs[3], lo);
    assert !Above(fs[1], hi) && !Above(fs[3], hi);
    assert Stop(fs, lo, hi, 0) == Stop(fs, lo, hi, 1) == Stop(fs, lo, hi, 2)
      == Stop(fs, lo, hi, 3) == Stop(fs, lo, hi, 4);
    assert Reached(fs, lo, 0) == [] && Reached(fs, lo, 1) == [] && Reached(fs, lo, 2) == [1];
    assert Reached(fs, lo, 3) == [1] && Reached(fs, lo, 4) == [1, 3];
    assert Skipped(fs, lo, 1, 1) == [] && Skipped(fs, lo, 1, 2) == [] && Skipped(fs, lo, 1, 3) == [2];
  }

  lemma PushedToBack()
    ensures Range([[Nth(0)], [Nth(3)]], Nth(1), Nth(1)) == (2, 2)
    ensures Range([[Nth(0)], [Nth(3)], [Nth(1)]], Nth(5), Nth(5)) == (3, 3)
  {
    Ascend(0, 1);
    Ascend(3, 1);
    Ascend(1, 3);
    var fs := [[Nth(0)], [Nth(3)]];
    assert Below(fs[0], Nth(1)) && !Below(fs[1], Nth(1)) && Above(fs[1], Nth(1));
    assert Stop(fs, Nth(1), Nth(1), 0) == Stop(fs, Nth(1), Nth(1), 1) == 1;
    assert Reached(fs, Nth(1), 0) == [] && Reached(fs, Nth(1), 1) == [];
    Ascend(0, 5);
    Ascend(3, 5);
    Ascend(1, 5);
    AllBelow([[Nth(0)], [Nth(3)], [Nth(1)]], Nth(5), Nth(5));
  }

  lemma AllBelow(fs: seq<File>, lo: Entry, hi: Entry)
    requires forall i :: 0 <= i < |fs| ==> Below(fs[i], lo)
    ensures Overlapping(fs, lo, hi) == [] && Range(fs, lo, hi) == (|fs|, |fs|)
  {
    StopIsFirst(fs, lo, hi, 0);
    ReachedStays(fs, lo, 0, Stop(fs, lo, hi, 0));
  }

  /** In the level that LevelZeroUnsorted leaves, a search for the key of 3 stops at the first file. */
  lemma KeyNotFound()
    ensures var fs := [[Nth(0), Nth(1), Nth(2), Nth(4)], [Nth(3)]];
            FirstCovering(fs, Nth(3).key, 0) == 0 && !FirstDecides(fs, Nth(3).key)
  {
    var fs, key := [[Nth(0), Nth(1), Nth(2), Nth(4)], [Nth(3)]], Nth(3).key;
    KeysAscend(3, 4);
    KeysAscend(0, 3);
    KeyAsymmetric(Nth(3).key, Nth(4).key);
    KeyAsymmetric(Nth(0).key, Nth(3).key);
    KeyLengths(0, 3);
    KeyLengths(1, 3);
    KeyLengths(2, 3);
    KeyLengths(4, 3);
    assert !Present(fs[0], key);
    FlattenHas(fs, 1, Nth(3));
  }
}
