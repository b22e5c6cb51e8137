/** A run of the store from the empty database in which a compaction loses an entry
    (src/table/db.cc:209-520, src/io/io.cc:160-180). */
module LostEntry {
  import opened Lists
  import opened InternalEntry
  import opened Order
  import opened Sorted
  import opened MergeOutput
  import opened Tools
  import opened Levels
  import opened Compaction
  import opened CompactionLaws
  import opened Runs
  import opened LevelExamples
  import Database

  // When the keys 0 to 11 are written.
  const IDS: seq<nat> := [0, 2, 6, 1, 11, 4, 7, 3, 5, 8, 9, 10]

  // The entry of the k-th key.
  function K(k: nat): Entry
    requires k < 12
  {
    Nth(k).(id := IDS[k])
  }

  lemma InOrder(i: nat, j: nat)
    requires i < 12 && j < 12
    ensures Less(K(i), K(j)) <==> i < j
  {
    LessIsStrictOrder(K(i), K(j), K(i));
    if i < j {
      KeysAscend(i, j);
    } else if j < i {
      KeysAscend(j, i);
    }
  }

  // ---------------------------------------------------------------- files of such entries

  predicate Increasing(ks: seq<nat>) {
    (forall i :: 0 <= i < |ks| ==> ks[i] < 12) && forall i, j :: 0 <= i < j < |ks| ==> ks[i] < ks[j]
  }

  // The file of some keys.
  function F(ks: seq<nat>): File
    requires Increasing(ks)
  {
    seq(|ks|, i requires 0 <= i < |ks| => K(ks[i]))
  }

  lemma FileIsSorted(ks: seq<nat>)
    requires Increasing(ks)
    ensures IsSorted(F(ks)) && forall i, j :: 0 <= i < j < |ks| ==> F(ks)[i].key != F(ks)[j].key
  {
    forall i, j | 0 <= i < j < |ks|
      ensures LessEq(F(ks)[i], F(ks)[j]) && F(ks)[i].key != F(ks)[j].key
    {
      InOrder(ks[i], ks[j]);
      InOrder(ks[j], ks[i]);
      assert |F(ks)[i].key| == ks[i] + 1;
    }
  }

  lemma SizeOfK(k: nat)
    requires k < 12
    ensures SizeOf(K(k)) == k + 12
  {
  }

  lemma LastEntry(ks: seq<nat>)
    requires Increasing(ks) && ks != []
    ensures F(ks) == F(ks[..|ks| - 1]) + [K(ks[|ks| - 1])]
  {
  }

  lemma {:induction false} FileSize(ks: seq<nat>)
    requires Increasing(ks)
    ensures TotalSize(F(ks)) <= 24 * |ks|
  {
    if ks != [] {
      var n := |ks| - 1;
      FileSize(ks[..n]);
      LastEntry(ks);
      SizeOfK(ks[n]);
      OneMoreSize(F(ks[..n]), K(ks[n]));
    }
  }

  /** Such a file is what a merge makes of its entries. */
  lemma FileIsMerge(ks: seq<nat>)
    requires Increasing(ks) && 0 < |ks| < 12
    ensures IsSorted(F(ks)) && AllSmall(F(ks)) && Finish(Fold(F(ks))) == [F(ks)]
  {
    FileIsSorted(ks);
    FileSize(ks);
    FewEntries(F(ks));
    forall e <- F(ks)
      ensures SizeOf(e) < LIMIT
    {
      var i :| 0 <= i < |ks| && F(ks)[i] == e;
      SizeOfK(ks[i]);
    }
  }

  // ---------------------------------------------------------------- databases of such files

  // Files by name, one block each.
  function StoreOf(files: seq<File>): Store {
    map i: nat | i < |files| :: [files[i]]
  }

  function D(levels: seq<seq<nat>>, files: seq<File>, nextId: nat): Db {
    Db(levels, StoreOf(files), nextId)
  }

  function FilesOf(files: seq<File>, names: seq<nat>): (fs: seq<File>)
    requires forall i :: 0 <= i < |names| ==> names[i] < |files|
  {
    seq(|names|, i requires 0 <= i < |names| => files[names[i]])
  }

  lemma ContentsOf(files: seq<File>, names: seq<nat>)
    requires forall i :: 0 <= i < |names| ==> names[i] < |files|
    ensures Contents(StoreOf(files), names) == FilesOf(files, names)
  {
    forall i | 0 <= i < |names|
      ensures Content(StoreOf(files), names[i]) == files[names[i]]
    {
      FlattenOne(files[names[i]]);
    }
  }

  lemma OneMoreFile(files: seq<File>, f: File)
    ensures StoreOf(files)[|files| := [f]] == StoreOf(files + [f])
  {
  }

  lemma FlushStep(levels: seq<seq<nat>>, files: seq<File>, f: File, id: nat, id': nat)
    requires f != [] && IsSorted(f) && id <= id' && NewEntries(f, id, id')
    ensures IsMove(D(levels, files, id), Flush(|files|, [f]), D(WithFile(levels, |files|), files + [f], id'))
  {
    OneMoreFile(files, f);
    FlattenOne(f);
  }

  lemma Writes(files: seq<File>, f: File)
    requires f != [] && IsSorted(f)
    ensures WrittenFiles(StoreOf(files), StoreOf(files + [f]), [|files|], [f])
  {
    FlattenOne(f);
    ContentsOf(files + [f], [|files|]);
  }

  lemma OneFileHull(f: File)
    requires f != []
    ensures IsHull([f], First(f), Last(f))
  {
    LessEqTotal(First(f), First(f));
    LessEqTotal(Last(f), Last(f));
    assert f in [f];
  }

  /** What there is to check for a compaction of the first file of level 0, whose entries and those of
      the files merged with it make the file of the keys ks. */
  ghost predicate Merges(files: seq<File>, zero: seq<nat>, one: seq<nat>, removed: seq<nat>, over: seq<nat>,
                         range: (nat, nat), ks: seq<nat>)
    requires zero != [] && (forall i :: 0 <= i < |zero| ==> zero[i] < |files|)
    requires forall i :: 0 <= i < |one| ==> one[i] < |files|
  {
    var fs, next := FilesOf(files, zero), FilesOf(files, one);
    && fs[0] != [] && range.0 <= range.1 <= |one|
    && Removed(fs, 0, 1, First(fs[0]), Last(fs[0])) == removed
    && Overlapping(next, First(fs[0]), Last(fs[0])) == over && Range(next, First(fs[0]), Last(fs[0])) == range
    && Increasing(ks) && 0 < |ks| < 12
    && multiset(F(ks)) == Mass(StoreOf(files), Picks(zero, removed) + Picks(one, over))
  }

  // The two levels of the run; level 1 does not exist at first.
  function TwoLevels(zero: seq<nat>, one: seq<nat>): seq<seq<nat>> {
    if one != [] then [zero, one] else if zero != [] then [zero] else []
  }

  lemma NextOne(zero: seq<nat>, one: seq<nat>, removed: seq<nat>, range: (nat, nat), name: nat)
    requires zero != [] && range.0 <= range.1 <= |one|
    ensures Next(TwoLevels(zero, one), 0) == one
    ensures NewLevels(TwoLevels(zero, one), 0, removed, range, [name])
            == TwoLevels(Kept(zero, removed), one[..range.0] + [name] + one[range.1..])
  {
  }

  function StepOf(files: seq<File>, zero: seq<nat>, one: seq<nat>, removed: seq<nat>, over: seq<nat>,
                  ks: seq<nat>): Step
    requires zero != [] && zero[0] < |files| && files[zero[0]] != [] && Increasing(ks)
  {
    var f := files[zero[0]];
    Step(First(f), Last(f), Picks(zero, removed) + Picks(one, over), [|files|], F(ks))
  }

  lemma StepSelects(files: seq<File>, zero: seq<nat>, one: seq<nat>, removed: seq<nat>, over: seq<nat>,
                    range: (nat, nat), ks: seq<nat>)
    requires zero != [] && (forall i :: 0 <= i < |zero| ==> zero[i] < |files|)
    requires forall i :: 0 <= i < |one| ==> one[i] < |files|
    requires Merges(files, zero, one, removed, over, range, ks)
    ensures Selects(TwoLevels(zero, one), StoreOf(files), 0, 1, StepOf(files, zero, one, removed, over, ks))
    ensures var fs, s := Contents(StoreOf(files), zero), StepOf(files, zero, one, removed, over, ks);
            Removed(fs, 0, 1, s.lo, s.hi) == removed && Range(Contents(StoreOf(files), one), s.lo, s.hi) == range
  {
    ContentsOf(files, zero);
    ContentsOf(files, one);
    ContentsOf(files, zero[..1]);
    assert FilesOf(files, zero[..1]) == [files[zero[0]]];
    OneFileHull(files[zero[0]]);
    NextOne(zero, one, removed, range, |files|);
  }

  lemma CompactStep(files: seq<File>, zero: seq<nat>, one: seq<nat>, removed: seq<nat>, over: seq<nat>,
                    range: (nat, nat), ks: seq<nat>, id: nat) returns (m: Move)
    requires zero != [] && (forall i :: 0 <= i < |zero| ==> zero[i] < |files|)
    requires forall i :: 0 <= i < |one| ==> one[i] < |files|
    requires Merges(files, zero, one, removed, over, range, ks)
    ensures m.Compaction? && m.level == 0 && m.count == 1
    ensures IsMove(D(TwoLevels(zero, one), files, id), m,
                   D(TwoLevels(Kept(zero, removed), one[..range.0] + [|files|] + one[range.1..]), files + [F(ks)], id))
  {
    m := Compaction(0, 1, StepOf(files, zero, one, removed, over, ks));
    StepSelects(files, zero, one, removed, over, range, ks);
    FileIsMerge(ks);
    Writes(files, F(ks));
    NextOne(zero, one, removed, range, |files|);
  }

  // ---------------------------------------------------------------- the files of the run

  // The keys of the files, in the order they are written. Files 4, 6, 8, 10 and 13 come from compactions.
  const KEYS: seq<seq<nat>> :=
    [[0], [3], [1], [7], [0], [5, 8], [3], [2, 6], [1], [9], [5, 7, 8], [10], [11], [2, 3, 5, 6, 7, 8]]

  lemma KeysIncrease(i: nat)
    requires i < 14
    ensures Increasing(KEYS[i]) && KEYS[i] != []
  {
  }

  // The first n of them.
  function Files(n: nat): (fs: seq<File>)
    requires n <= 14
    ensures |fs| == n && forall i :: 0 <= i < n ==> Increasing(KEYS[i]) && fs[i] == F(KEYS[i]) && fs[i] != []
  {
    seq(n, i requires 0 <= i < n => KeysIncrease(i); F(KEYS[i]))
  }

  lemma NextFile(n: nat)
    requires n < 14
    ensures Increasing(KEYS[n]) && Files(n) + [F(KEYS[n])] == Files(n + 1)
  {
    KeysIncrease(n);
  }

  lemma MassOf(files: seq<File>, names: seq<nat>)
    requires forall i :: 0 <= i < |names| ==> names[i] < |files|
    ensures Mass(StoreOf(files), names) == multiset(Flatten(FilesOf(files, names)))
  {
    MassIsFlat(StoreOf(files), names);
    ContentsOf(files, names);
  }

  lemma NoneTaken(fs: seq<File>, lo: Entry, hi: Entry)
    requires fs != [] && forall i :: 1 <= i < |fs| ==> !Overlaps(fs[i], lo, hi)
    ensures Removed(fs, 0, 1, lo, hi) == [0]
  {
    var r := Selected(fs, 1, lo, hi, |fs|);
    if r != [] {
      SelectedMember(fs, 1, lo, hi, |fs|, r[0]);
    }
  }

  // Which files overlap the range of a file, in terms of their keys.
  predicate Before(i: nat, j: nat)
    requires i < 14 && j < 14
  {
    KeysIncrease(i);
    KeysIncrease(j);
    KEYS[i][|KEYS[i]| - 1] < KEYS[j][0]
  }

  lemma Apart(n: nat, i: nat, j: nat)
    requires i < n <= 14 && j < n
    ensures var f, g := Files(n)[i], Files(n)[j];
            && (Below(f, First(g)) <==> Before(i, j))
            && (Above(f, Last(g)) <==> Before(j, i))
  {
    KeysIncrease(i);
    KeysIncrease(j);
    InOrder(KEYS[i][|KEYS[i]| - 1], KEYS[j][0]);
    InOrder(KEYS[j][|KEYS[j]| - 1], KEYS[i][0]);
  }

  predicate Names(names: seq<nat>, n: nat) {
    n <= 14 && forall i :: 0 <= i < |names| ==> names[i] < n
  }

  // The first file of level 0 overlaps no other file there.
  predicate Single(zero: seq<nat>)
    requires Names(zero, 14) && zero != []
  {
    forall i :: 1 <= i < |zero| ==> Before(zero[i], zero[0]) || Before(zero[0], zero[i])
  }

  lemma SingleRemoved(n: nat, zero: seq<nat>)
    requires Names(zero, n) && zero != [] && Single(zero)
    ensures var f := Files(n)[zero[0]]; Removed(FilesOf(Files(n), zero), 0, 1, First(f), Last(f)) == [0]
  {
    var f, fs := Files(n)[zero[0]], FilesOf(Files(n), zero);
    forall i | 1 <= i < |zero|
      ensures !Overlaps(fs[i], First(f), Last(f))
    {
      Apart(n, zero[i], zero[0]);
    }
    NoneTaken(fs, First(f), Last(f));
  }

  lemma SingleMass(n: nat, zero: seq<nat>, one: seq<nat>)
    requires Names(zero, n) && zero != []
    ensures Increasing(KEYS[zero[0]])
    ensures Mass(StoreOf(Files(n)), Picks(zero, [0]) + Picks(one, [])) == multiset(F(KEYS[zero[0]]))
  {
    var files, k := Files(n), zero[0];
    PicksOfOne(zero, one);
    MassOfOne(files, k);
  }

  // A compaction of one file that overlaps no other in either level.
  lemma SingleMerges(n: nat, zero: seq<nat>, one: seq<nat>, range: (nat, nat))
    requires Names(zero, n) && Names(one, n) && zero != [] && Single(zero) && range.0 <= range.1 <= |one|
    requires var f, next := Files(n)[zero[0]], FilesOf(Files(n), one);
             Overlapping(next, First(f), Last(f)) == [] && Range(next, First(f), Last(f)) == range
    ensures Merges(Files(n), zero, one, [0], [], range, KEYS[zero[0]])
  {
    SingleRemoved(n, zero);
    SingleMass(n, zero, one);
    ShortFile(zero[0]);
    assert FilesOf(Files(n), zero)[0] == Files(n)[zero[0]];
  }

  lemma ShortFile(k: nat)
    requires k < 14
    ensures 0 < |KEYS[k]| < 12
  {
  }

  lemma PicksOfOne(zero: seq<nat>, one: seq<nat>)
    requires zero != []
    ensures Picks(zero, [0]) + Picks(one, []) == [zero[0]]
  {
    assert [0][..0] == [];
  }

  // It is larger than all of level 1.
  lemma BackMerges(n: nat, zero: seq<nat>, one: seq<nat>)
    requires Names(zero, n) && Names(one, n) && zero != [] && Single(zero)
    requires forall i :: 0 <= i < |one| ==> Before(one[i], zero[0])
    ensures Merges(Files(n), zero, one, [0], [], (|one|, |one|), KEYS[zero[0]])
  {
    AllAfter(n, zero[0], one);
    SingleMerges(n, zero, one, (|one|, |one|));
  }

  // It falls between the two files of level 1.
  lemma GapMerges(n: nat, zero: seq<nat>, a: nat, b: nat)
    requires Names(zero, n) && a < n && b < n && zero != [] && Single(zero)
    requires Before(a, zero[0]) && Before(zero[0], b)
    ensures Merges(Files(n), zero, [a, b], [0], [], (2, 2), KEYS[zero[0]])
  {
    var files, k := Files(n), zero[0];
    var lo, hi, next := First(files[k]), Last(files[k]), FilesOf(files, [a, b]);
    Apart(n, a, k);
    Apart(n, b, k);
    KeysIncrease(k);
    KeysIncrease(b);
    assert Below(next[0], lo) && !Below(next[1], lo) && Above(next[1], hi);
    assert Stop(next, lo, hi, 0) == Stop(next, lo, hi, 1) == 1;
    assert Reached(next, lo, 0) == [] && Reached(next, lo, 1) == [];
    SingleMerges(n, zero, [a, b], (2, 2));
  }

  // What is picked from positions.
  lemma PicksAt<T>(s: seq<T>, i: nat, j: nat)
    requires i < |s| && j < |s|
    ensures Picks(s, []) == [] && Picks(s, [i]) == [s[i]] && Picks(s, [i, j]) == [s[i], s[j]]
  {
    assert [i][..0] == [] && [i, j][..1] == [i];
  }

  lemma MassOfTwo(files: seq<File>, a: nat, b: nat)
    requires a < |files| && b < |files|
    ensures Mass(StoreOf(files), [a, b]) == multiset(files[a] + files[b])
  {
    MassOf(files, [a, b]);
    assert FilesOf(files, [a, b]) == [files[a], files[b]];
    TwoFiles(files[a], files[b]);
  }

  lemma MassOfThree(files: seq<File>, a: nat, b: nat, c: nat)
    requires a < |files| && b < |files| && c < |files|
    ensures Mass(StoreOf(files), [a, b, c]) == multiset(files[a] + files[b] + files[c])
  {
    assert [a, b, c] == [a, b] + [c];
    MassAppend(StoreOf(files), [a, b], [c]);
    MassOfTwo(files, a, b);
    MassOfOne(files, c);
  }

  lemma MassOfOne(files: seq<File>, a: nat)
    requires a < |files|
    ensures Mass(StoreOf(files), [a]) == multiset(files[a])
  {
    MassOf(files, [a]);
    assert FilesOf(files, [a]) == [files[a]];
    FlattenOne(files[a]);
  }

  // The entries of neighbours may change places.
  lemma Swapped<T>(p: seq<T>, x: T, y: T, q: seq<T>)
    ensures multiset(p + [x, y] + q) == multiset(p + [y, x] + q)
  {
    assert [x, y] == [x] + [y] && [y, x] == [y] + [x];
    assert multiset([x, y]) == multiset([y, x]);
  }

  lemma FileOf(n: nat, i: nat, ks: seq<nat>)
    requires i < n <= 14 && KEYS[i] == ks
    ensures Increasing(ks) && Files(n)[i] == F(ks)
  {
  }

  // [7] takes [5, 8] along, and their merge goes to the back, behind [1].
  lemma WideMerges()
    ensures Merges(Files(10), [3, 5, 7, 9], [4, 6, 8], [0, 1], [], (3, 3), KEYS[10])
  {
    FileOf(10, 3, [7]);
    WideScan();
    WideBack();
    WideMass();
    KeysIncrease(10);
  }

  lemma WideBefore()
    ensures !Before(5, 3) && !Before(3, 5) && Before(7, 3) && Before(3, 9)
    ensures Before(4, 3) && Before(6, 3) && Before(8, 3)
  {
  }

  lemma WideScan()
    ensures var f, fs := Files(10)[3], FilesOf(Files(10), [3, 5, 7, 9]);
            fs[0] == f && Removed(fs, 0, 1, First(f), Last(f)) == [0, 1]
  {
    WideBefore();
    NextTaken(10, [3, 5, 7, 9]);
  }

  lemma WideBack()
    ensures var f, next := Files(10)[3], FilesOf(Files(10), [4, 6, 8]);
            Overlapping(next, First(f), Last(f)) == [] && Range(next, First(f), Last(f)) == (3, 3)
  {
    WideBefore();
    AllAfter(10, 3, [4, 6, 8]);
  }

  // The first file of level 0 overlaps the second, and no other.
  lemma NextTaken(n: nat, zero: seq<nat>)
    requires Names(zero, n) && |zero| == 4 && !Before(zero[0], zero[1]) && !Before(zero[1], zero[0])
    requires Before(zero[0], zero[2]) || Before(zero[2], zero[0])
    requires Before(zero[0], zero[3]) || Before(zero[3], zero[0])
    ensures var f, fs := Files(n)[zero[0]], FilesOf(Files(n), zero);
            fs[0] == f && Removed(fs, 0, 1, First(f), Last(f)) == [0, 1]
  {
    var f := Files(n)[zero[0]];
    Apart(n, zero[1], zero[0]);
    Apart(n, zero[2], zero[0]);
    Apart(n, zero[3], zero[0]);
    OneTaken(FilesOf(Files(n), zero), First(f), Last(f));
  }

  // A file behind all of level 1.
  lemma AllAfter(n: nat, k: nat, one: seq<nat>)
    requires k < n && Names(one, n) && forall i :: 0 <= i < |one| ==> Before(one[i], k)
    ensures var f, next := Files(n)[k], FilesOf(Files(n), one);
            Overlapping(next, First(f), Last(f)) == [] && Range(next, First(f), Last(f)) == (|one|, |one|)
  {
    var f, next := Files(n)[k], FilesOf(Files(n), one);
    forall i | 0 <= i < |one|
      ensures Below(next[i], First(f))
    {
      Apart(n, one[i], k);
    }
    AllBelow(next, First(f), Last(f));
  }

  lemma OneTaken(fs: seq<File>, lo: Entry, hi: Entry)
    requires |fs| == 4 && Overlaps(fs[1], lo, hi) && !Overlaps(fs[2], lo, hi) && !Overlaps(fs[3], lo, hi)
    ensures Removed(fs, 0, 1, lo, hi) == [0, 1]
  {
    assert Selected(fs, 1, lo, hi, 2) == [1];
    assert Selected(fs, 1, lo, hi, 3) == [1];
    assert Selected(fs, 1, lo, hi, 4) == [1];
  }

  lemma WideMass()
    ensures Mass(StoreOf(Files(10)), Picks([3, 5, 7, 9], [0, 1]) + Picks([4, 6, 8], [])) == multiset(F(KEYS[10]))
  {
    WidePicks();
    WideFiles();
    MassOfTwo(Files(10), 3, 5);
  }

  lemma WidePicks()
    ensures Picks([3, 5, 7, 9], [0, 1]) + Picks([4, 6, 8], []) == [3, 5]
  {
    PicksAt([3, 5, 7, 9], 0, 1);
  }

  lemma WideFiles()
    ensures Increasing(KEYS[10]) && multiset(Files(10)[3] + Files(10)[5]) == multiset(F(KEYS[10]))
  {
    FileOf(10, 3, [7]);
    FileOf(10, 5, [5, 8]);
    WideOrder();
  }

  lemma WideOrder()
    ensures multiset(F([7]) + F([5, 8])) == multiset(F([5, 7, 8]))
  {
    Swapped([], K(7), K(5), [K(8)]);
    assert F([7]) + F([5, 8]) == [] + [K(7), K(5)] + [K(8)];
    assert F([5, 7, 8]) == [] + [K(5), K(7)] + [K(8)];
  }

  // [2, 6] selects [3] and [5, 7, 8]. Between them is [1].
  lemma LosingMerges()
    ensures Merges(Files(13), [7, 9, 11, 12], [4, 6, 8, 10], [0], [1, 3], (1, 4), KEYS[13])
  {
    FileOf(13, 7, [2, 6]);
    SingleRemoved(13, [7, 9, 11, 12]);
    LosingScan();
    LosingMass();
    KeysIncrease(13);
  }

  lemma LosingBefore()
    ensures Before(4, 7) && !Before(6, 7) && !Before(7, 6) && Before(8, 7) && !Before(10, 7) && !Before(7, 10)
  {
  }

  lemma LosingScan()
    ensures var f, next := Files(13)[7], FilesOf(Files(13), [4, 6, 8, 10]);
            Overlapping(next, First(f), Last(f)) == [1, 3] && Range(next, First(f), Last(f)) == (1, 4)
  {
    LosingBefore();
    TwoOverlap(13, 7, [4, 6, 8, 10]);
  }

  // A file that overlaps the second and the fourth of level 1, and is behind the others.
  lemma TwoOverlap(n: nat, k: nat, one: seq<nat>)
    requires k < n && Names(one, n) && |one| == 4 && Before(one[0], k) && Before(one[2], k)
    requires !Before(one[1], k) && !Before(k, one[1]) && !Before(one[3], k) && !Before(k, one[3])
    ensures var f, next := Files(n)[k], FilesOf(Files(n), one);
            Overlapping(next, First(f), Last(f)) == [1, 3] && Range(next, First(f), Last(f)) == (1, 4)
  {
    var f := Files(n)[k];
    Apart(n, one[0], k);
    Apart(n, one[1], k);
    Apart(n, one[2], k);
    Apart(n, one[3], k);
    SecondAndFourth(FilesOf(Files(n), one), First(f), Last(f));
  }

  lemma SecondAndFourth(fs: seq<File>, lo: Entry, hi: Entry)
    requires |fs| == 4 && Below(fs[0], lo) && Below(fs[2], lo)
    requires Overlaps(fs[1], lo, hi) && Overlaps(fs[3], lo, hi)
    ensures Overlapping(fs, lo, hi) == [1, 3] && Range(fs, lo, hi) == (1, 4)
  {
    assert Stop(fs, lo, hi, 0) == Stop(fs, lo, hi, 1) == Stop(fs, lo, hi, 2)
      == Stop(fs, lo, hi, 3) == Stop(fs, lo, hi, 4);
    assert Reached(fs, lo, 0) == [] && Reached(fs, lo, 1) == [] && Reached(fs, lo, 2) == [1];
    assert Reached(fs, lo, 3) == [1] && Reached(fs, lo, 4) == [1, 3];
  }

  lemma LosingMass()
    ensures Mass(StoreOf(Files(13)), Picks([7, 9, 11, 12], [0]) + Picks([4, 6, 8, 10], [1, 3]))
            == multiset(F(KEYS[13]))
  {
    LosingPicks();
    MassOfThree(Files(13), 7, 6, 10);
    FileOf(13, 7, [2, 6]);
    FileOf(13, 6, [3]);
    FileOf(13, 10, [5, 7, 8]);
    LosingOrder();
  }

  lemma LosingPicks()
    ensures Picks([7, 9, 11, 12], [0]) + Picks([4, 6, 8, 10], [1, 3]) == [7, 6, 10]
  {
    PicksAt([7, 9, 11, 12], 0, 0);
    PicksAt([4, 6, 8, 10], 1, 3);
  }

  lemma LosingOrder()
    ensures multiset(F([2, 6]) + F([3]) + F([5, 7, 8])) == multiset(F([2, 3, 5, 6, 7, 8]))
  {
    assert F([2, 6]) == [K(2), K(6)] && F([3]) == [K(3)];
    assert F([5, 7, 8]) == [K(5), K(7), K(8)];
    SixKeys();
    Sifted(K(2), K(6), K(3), K(5), K(7), K(8));
  }

  lemma SixKeys()
    ensures F([2, 3, 5, 6, 7, 8]) == [K(2), K(3), K(5), K(6), K(7), K(8)]
  {
  }

  lemma Sifted<T>(a: T, b: T, c: T, d: T, e: T, f: T)
    ensures multiset([a, b] + [c] + [d, e, f]) == multiset([a, c, d, b, e, f])
  {
    FiveParts([a], [b], [c], [d], [e, f]);
    FiveParts([a], [c], [d], [b], [e, f]);
    SixInParts(a, b, c, d, e, f);
    SixInParts(a, c, d, b, e, f);
    Regrouped(multiset([a]), multiset([b]), multiset([c]), multiset([d]), multiset([e, f]));
  }

  lemma SixInParts<T>(a: T, b: T, c: T, d: T, e: T, f: T)
    ensures [a, b, c, d, e, f] == [a] + [b] + [c] + [d] + [e, f]
    ensures [a, b, c, d, e, f] == [a, b] + [c] + [d, e, f]
  {
  }

  lemma FiveParts<T>(a: seq<T>, b: seq<T>, c: seq<T>, d: seq<T>, e: seq<T>)
    ensures multiset(a + b + c + d + e) == multiset(a) + multiset(b) + multiset(c) + multiset(d) + multiset(e)
  {
  }

  lemma Regrouped<T>(a: multiset<T>, b: multiset<T>, c: multiset<T>, d: multiset<T>, e: multiset<T>)
    ensures a + b + c + d + e == a + c + d + b + e
  {
  }

  // ---------------------------------------------------------------- the run

  // The files of the two levels after k moves, each of which writes one file, and the next id.
  const ZERO: seq<seq<nat>> :=
    [[], [0], [0, 1], [0, 1, 2], [0, 1, 2, 3], [1, 2, 3], [1, 2, 3, 5], [2, 3, 5], [2, 3, 5, 7], [3, 5, 7],
     [3, 5, 7, 9], [7, 9], [7, 9, 11], [7, 9, 11, 12], [9, 11, 12]]
  const ONE: seq<seq<nat>> :=
    [[], [], [], [], [], [4], [4], [4, 6], [4, 6], [4, 6, 8],
     [4, 6, 8], [4, 6, 8, 10], [4, 6, 8, 10], [4, 6, 8, 10], [4, 13]]
  const NEXT: seq<nat> := [0, 1, 2, 3, 4, 4, 6, 6, 8, 8, 9, 9, 10, 11, 11]

  function State(k: nat): Db
    requires k < 15
  {
    D(TwoLevels(ZERO[k], ONE[k]), Files(k), NEXT[k])
  }

  /** What MVCCWriteLevel0 does when: it compacts the first file of a full level 0, and otherwise writes. */
  predicate Due(d: Db, m: Move) {
    match m
    case Flush(_, _) => d.levels == [] || |d.levels[0]| < Database.LEVEL_SIZE[0]
    case Compaction(level, count, _) =>
      level == 0 && count == 1 && d.levels != [] && |d.levels[0]| >= Database.LEVEL_SIZE[0]
  }

  predicate IsWrite(k: nat)
    requires k < 14
  {
    && ZERO[k + 1] == ZERO[k] + [k] && ONE[k + 1] == ONE[k] && |ZERO[k]| < 4 && (ZERO[k] == [] ==> ONE[k] == [])
    && NEXT[k] <= NEXT[k + 1]
    && forall i :: 0 <= i < |KEYS[k]| ==> KEYS[k][i] < 12 && NEXT[k] <= IDS[KEYS[k][i]] < NEXT[k + 1]
  }

  // The lists after a compaction.
  predicate IsMerge(k: nat, removed: seq<nat>, range: (nat, nat))
    requires k < 14
  {
    && |ZERO[k]| == 4 && Names(ZERO[k], k) && Names(ONE[k], k) && range.0 <= range.1 <= |ONE[k]|
    && NEXT[k + 1] == NEXT[k]
    && ZERO[k + 1] == Kept(ZERO[k], removed) && ONE[k + 1] == ONE[k][..range.0] + [k] + ONE[k][range.1..]
  }

  // What a flush writes is the next file, and that of key 1 is written by one.
  predicate Wrote(k: nat, m: Move)
    requires k < 14
  {
    && (m.Flush? ==> Increasing(KEYS[k]) && Flatten(m.blocks) == F(KEYS[k]))
    && (k == 2 ==> m.Flush?)
  }

  ghost predicate IsStep(k: nat, m: Move)
    requires k < 14
  {
    Due(State(k), m) && IsMove(State(k), m, State(k + 1))
  }

  lemma WriteStep(k: nat) returns (m: Move)
    requires k < 14 && IsWrite(k)
    ensures IsStep(k, m) && Wrote(k, m)
  {
    NextFile(k);
    KeysIncrease(k);
    var f := F(KEYS[k]);
    m := Flush(k, [f]);
    FileIsSorted(KEYS[k]);
    FileIsNew(KEYS[k], NEXT[k], NEXT[k + 1]);
    WithNext(ZERO[k], ONE[k], k);
    FlushStep(TwoLevels(ZERO[k], ONE[k]), Files(k), f, NEXT[k], NEXT[k + 1]);
    FlattenOne(f);
  }

  lemma WithNext(zero: seq<nat>, one: seq<nat>, n: nat)
    requires zero == [] ==> one == []
    ensures WithFile(TwoLevels(zero, one), n) == TwoLevels(zero + [n], one)
  {
    assert [] + [n] == [n];
  }

  lemma FileIsNew(ks: seq<nat>, id: nat, id': nat)
    requires Increasing(ks) && forall i :: 0 <= i < |ks| ==> id <= IDS[ks[i]] < id'
    ensures NewEntries(F(ks), id, id')
  {
    forall i, j | 0 <= i < j < |ks|
      ensures F(ks)[i].id != F(ks)[j].id
    {
      DistinctIds(ks[i], ks[j]);
    }
  }

  lemma DistinctIds(i: nat, j: nat)
    requires i < j < 12
    ensures IDS[i] != IDS[j]
  {
  }

  lemma MergeMove(zero: seq<nat>, one: seq<nat>, n: nat, id: nat, removed: seq<nat>, over: seq<nat>,
                  range: (nat, nat), zero': seq<nat>, one': seq<nat>) returns (m: Move)
    requires Names(zero, n) && Names(one, n) && n < 14 && |zero| == 4
    requires Merges(Files(n), zero, one, removed, over, range, KEYS[n])
    requires zero' == Kept(zero, removed) && one' == one[..range.0] + [n] + one[range.1..]
    ensures Due(D(TwoLevels(zero, one), Files(n), id), m) && m.Compaction?
    ensures IsMove(D(TwoLevels(zero, one), Files(n), id), m, D(TwoLevels(zero', one'), Files(n + 1), id))
  {
    m := CompactStep(Files(n), zero, one, removed, over, range, KEYS[n], id);
    NextFile(n);
  }

  lemma MergeStep(k: nat, removed: seq<nat>, over: seq<nat>, range: (nat, nat)) returns (m: Move)
    requires 2 < k < 14 && IsMerge(k, removed, range)
    requires Merges(Files(k), ZERO[k], ONE[k], removed, over, range, KEYS[k])
    ensures IsStep(k, m) && Wrote(k, m)
  {
    m := MergeMove(ZERO[k], ONE[k], k, NEXT[k], removed, over, range, ZERO[k + 1], ONE[k + 1]);
  }

  lemma AllWrites(k: nat)
    requires k < 14 && k !in {4, 6, 8, 10, 13}
    ensures IsWrite(k)
  {
  }

  // What is left of level 0 without its first file, or without the first two.
  lemma KeptOfFour(s: seq<nat>)
    requires |s| == 4
    ensures Kept(s, [0]) == s[1..] && Kept(s, [0, 1]) == s[2..]
  {
    KeptStretch(s, [0], 1, 4);
    KeptStretch(s, [0, 1], 2, 4);
    KeptStart(s);
    assert s[..4] == s && s[1..4] == s[1..] && s[2..4] == s[2..];
  }

  lemma KeptStart(s: seq<nat>)
    requires |s| == 4
    ensures Kept(s[..1], [0]) == [] && Kept(s[..2], [0, 1]) == []
  {
    assert s[..1][..0] == [] && s[..2][..1] == s[..1];
    assert Kept(s[..1], [0, 1]) == [];
  }

  // The two steps that push a file behind all of level 1.
  lemma BackTable(k: nat)
    requires k in {4, 6}
    ensures IsMerge(k, [0], (|ONE[k]|, |ONE[k]|)) && KEYS[k] == KEYS[ZERO[k][0]]
    ensures Single(ZERO[k]) && forall i :: 0 <= i < |ONE[k]| ==> Before(ONE[k][i], ZERO[k][0])
  {
    KeptOfFour(ZERO[k]);
  }

  lemma BackStep(k: nat) returns (m: Move)
    requires k in {4, 6}
    ensures IsStep(k, m) && Wrote(k, m)
  {
    BackTable(k);
    BackMerges(k, ZERO[k], ONE[k]);
    m := MergeStep(k, [0], [], (|ONE[k]|, |ONE[k]|));
  }

  lemma GapTable()
    ensures IsMerge(8, [0], (2, 2)) && KEYS[8] == KEYS[ZERO[8][0]] && ONE[8] == [4, 6]
    ensures Single(ZERO[8]) && Before(4, ZERO[8][0]) && Before(ZERO[8][0], 6)
  {
    KeptOfFour(ZERO[8]);
  }

  lemma GapStep() returns (m: Move)
    ensures IsStep(8, m) && Wrote(8, m)
  {
    GapTable();
    GapMerges(8, ZERO[8], 4, 6);
    m := MergeStep(8, [0], [], (2, 2));
  }

  lemma WideTable()
    ensures IsMerge(10, [0, 1], (3, 3)) && ZERO[10] == [3, 5, 7, 9] && ONE[10] == [4, 6, 8]
  {
    KeptOfFour(ZERO[10]);
  }

  lemma WideStep() returns (m: Move)
    ensures IsStep(10, m) && Wrote(10, m)
  {
    WideTable();
    WideMerges();
    m := MergeStep(10, [0, 1], [], (3, 3));
  }

  lemma LosingTable()
    ensures IsMerge(13, [0], (1, 4)) && ZERO[13] == [7, 9, 11, 12] && ONE[13] == [4, 6, 8, 10]
  {
    KeptOfFour(ZERO[13]);
  }

  lemma LosingStep() returns (m: Move)
    ensures IsStep(13, m) && Wrote(13, m)
  {
    LosingTable();
    LosingMerges();
    m := MergeStep(13, [0], [1, 3], (1, 4));
  }

  lemma EveryStep(k: nat) returns (m: Move)
    requires k < 14
    ensures IsStep(k, m) && Wrote(k, m)
  {
    if k == 4 || k == 6 {
      m := BackStep(k);
    } else if k == 8 {
      m := GapStep();
    } else if k == 10 {
      m := WideStep();
    } else if k == 13 {
      m := LosingStep();
    } else {
      AllWrites(k);
      m := WriteStep(k);
    }
  }

  lemma {:induction false} Steps(n: nat) returns (moves: seq<Move>)
    requires n <= 14
    ensures |moves| == n && forall k :: 0 <= k < n ==> IsStep(k, moves[k]) && Wrote(k, moves[k])
  {
    moves := [];
    if n > 0 {
      var before := Steps(n - 1);
      var m := EveryStep(n - 1);
      moves := before + [m];
      forall k | 0 <= k < n
        ensures IsStep(k, moves[k]) && Wrote(k, moves[k])
      {
        assert k < n - 1 ==> moves[k] == before[k];
      }
    }
  }

  // ---------------------------------------------------------------- what it has written, and what it has not lost

  lemma NotThere(n: nat, names: seq<nat>)
    requires Names(names, n) && forall i :: 0 <= i < |names| ==> 1 !in KEYS[names[i]]
    ensures K(1) !in Mass(StoreOf(Files(n)), names)
  {
    if K(1) in Mass(StoreOf(Files(n)), names) {
      var f := InSome(StoreOf(Files(n)), names, K(1));
      FlattenOne(Files(n)[f]);
      KeysIncrease(f);
      NotInFile(KEYS[f]);
    }
  }

  lemma NotInFile(ks: seq<nat>)
    requires Increasing(ks) && 1 !in ks
    ensures K(1) !in F(ks)
  {
    forall i | 0 <= i < |ks|
      ensures F(ks)[i] != K(1)
    {
      assert |F(ks)[i].key| == ks[i] + 1;
    }
  }

  lemma OnlyTwoLevels(zero: seq<nat>, one: seq<nat>, store: Store)
    requires one != []
    ensures TotalMass(store, TwoLevels(zero, one)) == Mass(store, zero) + Mass(store, one)
  {
    assert TwoLevels(zero, one) == [] + [zero] + [one];
    TotalMore(store, [], zero);
    TotalMore(store, [] + [zero], one);
  }

  lemma LastFiles()
    ensures Names(ZERO[14], 14) && Names(ONE[14], 14) && ONE[14] != []
    ensures forall i :: 0 <= i < |ZERO[14]| ==> 1 !in KEYS[ZERO[14][i]]
    ensures forall i :: 0 <= i < |ONE[14]| ==> 1 !in KEYS[ONE[14][i]]
  {
    assert ZERO[14] == [9, 11, 12] && ONE[14] == [4, 13];
  }

  lemma GoneAtTheEnd()
    ensures K(1) !in Total(State(14))
  {
    LastFiles();
    NotThere(14, ZERO[14]);
    NotThere(14, ONE[14]);
    OnlyTwoLevels(ZERO[14], ONE[14], StoreOf(Files(14)));
  }

  // Entries with the key of K(1) are K(1).
  predicate OneOfItsKey(m: multiset<Entry>) {
    forall e <- m :: |e.key| == 2 ==> e == K(1)
  }

  lemma FileHasOne(ks: seq<nat>)
    requires Increasing(ks)
    ensures OneOfItsKey(multiset(F(ks)))
    ensures 1 in ks ==> K(1) in multiset(F(ks))
  {
    forall e <- multiset(F(ks)) | |e.key| == 2
      ensures e == K(1)
    {
      var i :| 0 <= i < |ks| && F(ks)[i] == e;
    }
    if 1 in ks {
      var i :| 0 <= i < |ks| && ks[i] == 1;
      assert F(ks)[i] == K(1);
      assert K(1) in F(ks);
    }
  }

  lemma StepHasOne(k: nat, m: Move)
    requires k < 14 && Wrote(k, m)
    ensures OneOfItsKey(Added(m)) && (k == 2 ==> K(1) in Added(m))
  {
    if m.Flush? {
      FileHasOne(KEYS[k]);
    }
  }

  lemma BothHaveOne(a: multiset<Entry>, b: multiset<Entry>)
    requires OneOfItsKey(a) && OneOfItsKey(b)
    ensures OneOfItsKey(a + b) && (K(1) in a || K(1) in b ==> K(1) in a + b)
  {
  }

  lemma {:induction false} HistoryHasOne(moves: seq<Move>)
    requires |moves| <= 14 && forall k :: 0 <= k < |moves| ==> Wrote(k, moves[k])
    ensures OneOfItsKey(History(State(0), moves)) && (|moves| > 2 ==> K(1) in History(State(0), moves))
  {
    if moves == [] {
      NothingYet();
    } else {
      var n := |moves| - 1;
      HistoryHasOne(moves[..n]);
      StepHasOne(n, moves[n]);
      BothHaveOne(History(State(0), moves[..n]), Added(moves[n]));
    }
  }

  lemma NothingYet()
    ensures State(0) == Db([], map[], 0) && Total(State(0)) == multiset{}
  {
  }

  // Steps from each state to the next make a run.
  lemma {:induction false} StepsAreRun(dbs: seq<Db>, moves: seq<Move>, n: nat)
    requires n <= |moves| && |dbs| == |moves| + 1
    requires forall k :: 0 <= k < n ==> IsMove(dbs[k], moves[k], dbs[k + 1])
    ensures IsRun(dbs[..n + 1], moves[..n])
  {
    if n > 0 {
      StepsAreRun(dbs, moves, n - 1);
      assert dbs[..n + 1][..n] == dbs[..n] && moves[..n][..n - 1] == moves[..n - 1];
      RunByLast(dbs[..n + 1], moves[..n]);
    }
  }

  lemma StatesAreRun(dbs: seq<Db>, moves: seq<Move>)
    requires |moves| == 14 && |dbs| == 15
    requires forall k :: 0 <= k < 15 ==> dbs[k] == State(k)
    requires forall k :: 0 <= k < 14 ==> IsStep(k, moves[k])
    ensures IsRun(dbs, moves) && forall k :: 0 <= k < 14 ==> Due(dbs[k], moves[k])
  {
    forall k | 0 <= k < 14
      ensures IsMove(dbs[k], moves[k], dbs[k + 1]) && Due(dbs[k], moves[k])
    {
      StepBetween(k, moves[k], dbs[k], dbs[k + 1]);
    }
    WholeRun(dbs, moves);
  }

  lemma StepBetween(k: nat, m: Move, d: Db, d': Db)
    requires k < 14 && IsStep(k, m) && d == State(k) && d' == State(k + 1)
    ensures IsMove(d, m, d') && Due(d, m)
  {
  }

  lemma WholeRun(dbs: seq<Db>, moves: seq<Move>)
    requires |dbs| == |moves| + 1 && forall k :: 0 <= k < |moves| ==> IsMove(dbs[k], moves[k], dbs[k + 1])
    ensures IsRun(dbs, moves)
  {
    StepsAreRun(dbs, moves, |moves|);
    assert dbs[..|moves| + 1] == dbs && moves[..|moves|] == moves;
  }

  lemma NewestOfItsKey(m: multiset<Entry>)
    requires OneOfItsKey(m) && K(1) in m
    ensures IsNewest(K(1), m)
  {
    assert |K(1).key| == 2;
  }

  /** The store can lose an entry. In this run from the empty database, each table is written as soon
      as level 0 has room, and the first file of level 0 is compacted whenever it has not. The entry of
      key 1 is the newest of its key, and at the end it is not in the database any more. */
  lemma EntryIsLost() returns (dbs: seq<Db>, moves: seq<Move>)
    ensures IsRun(dbs, moves) && dbs[0] == Db([], map[], 0)
    ensures forall k :: 0 <= k < |moves| ==> Due(dbs[k], moves[k])
    ensures IsNewest(K(1), History(dbs[0], moves)) && K(1) !in Total(dbs[|moves|])
  {
    moves := Steps(14);
    dbs := seq(15, k requires 0 <= k < 15 => State(k));
    StatesAreRun(dbs, moves);
    NothingYet();
    HistoryHasOne(moves);
    NewestOfItsKey(History(State(0), moves));
    GoneAtTheEnd();
  }
}
