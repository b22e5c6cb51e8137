/** Compaction: the manifest and the files it names, and what one compaction step is
    (src/table/db.cc:382-520, src/io/io.cc:138-192). */
module Compaction {
  import opened Lists
  import opened InternalEntry
  import opened Order
  import opened Sorted
  import opened MergeOutput
  import opened MergeRuns
  import opened Merge
  import opened Tools
  import opened Levels
  import SST
  import opened Writer

  // The SST files on disk, by name.
  type Store = map<nat, Blocks>

  function Content(store: Store, f: nat): File {
    if f in store then Flatten(store[f]) else []
  }

  function Contents(store: Store, names: seq<nat>): (fs: seq<File>)
    ensures |fs| == |names| && forall i :: 0 <= i < |names| ==> fs[i] == Content(store, names[i])
  {
    seq(|names|, i requires 0 <= i < |names| => Content(store, names[i]))
  }

  // ---------------------------------------------------------------- conservation

  // The entries of some files.
  function Mass(store: Store, names: seq<nat>): multiset<Entry> {
    if names == [] then multiset{}
    else Mass(store, names[..|names| - 1]) + multiset(Content(store, names[|names| - 1]))
  }

  function TotalMass(store: Store, levels: seq<seq<nat>>): multiset<Entry> {
    if levels == [] then multiset{}
    else TotalMass(store, levels[..|levels| - 1]) + Mass(store, levels[|levels| - 1])
  }

  lemma {:induction false} MassAppend(store: Store, a: seq<nat>, b: seq<nat>)
    ensures Mass(store, a + b) == Mass(store, a) + Mass(store, b)
  {
    if b == [] {
      assert a + b == a;
    } else {
      var n := |b| - 1;
      assert (a + b)[..|a| + n] == a + b[..n];
      MassAppend(store, a, b[..n]);
    }
  }

  lemma {:induction false} MassIsFlat(store: Store, names: seq<nat>)
    ensures Mass(store, names) == multiset(Flatten(Contents(store, names)))
  {
    if names != [] {
      var n := |names| - 1;
      MassIsFlat(store, names[..n]);
      assert Contents(store, names)[..n] == Contents(store, names[..n]);
    }
  }

  // Files that stay on disk keep their entries.
  lemma {:induction false} MassFrame(store: Store, store': Store, names: seq<nat>)
    requires forall f <- names :: f in store && f in store' && store'[f] == store[f]
    ensures Mass(store', names) == Mass(store, names)
    ensures Contents(store', names) == Contents(store, names)
  {
    if names != [] {
      MassFrame(store, store', names[..|names| - 1]);
      assert names[|names| - 1] in names;
    }
  }

  lemma Exchange(a: multiset<Entry>, x: multiset<Entry>, b: multiset<Entry>, y: multiset<Entry>, c: multiset<Entry>)
    requires a + x == b + y
    ensures (a + c) + x == (b + c) + y && (c + a) + x == (c + b) + y
  {
    assert (a + c) + x == (a + x) + c && (b + c) + y == (b + y) + c;
    assert (c + a) + x == (a + x) + c && (c + b) + y == (b + y) + c;
  }

  lemma TotalMore(store: Store, levels: seq<seq<nat>>, level: seq<nat>)
    ensures TotalMass(store, levels + [level]) == TotalMass(store, levels) + Mass(store, level)
  {
    assert (levels + [level])[..|levels|] == levels;
  }

  lemma LastApart<T>(a: seq<T>, b: seq<T>)
    requires b != []
    ensures a + b == a + b[..|b| - 1] + [b[|b| - 1]]
  {
  }

  // A level is replaced by another, with levels before and after it.
  lemma {:induction false} Replaced(store: Store, a: seq<seq<nat>>, before: seq<nat>, after: seq<nat>, b: seq<seq<nat>>)
    ensures TotalMass(store, a + [after] + b) + Mass(store, before)
      == TotalMass(store, a + [before] + b) + Mass(store, after)
  {
    if b == [] {
      assert a + [after] + b == a + [after] && a + [before] + b == a + [before];
      TotalMore(store, a, after);
      TotalMore(store, a, before);
      Exchange(Mass(store, after), Mass(store, before), Mass(store, before), Mass(store, after), TotalMass(store, a));
    } else {
      var n := |b| - 1;
      Replaced(store, a, before, after, b[..n]);
      LastApart(a + [after], b);
      LastApart(a + [before], b);
      TotalMore(store, a + [after] + b[..n], b[n]);
      TotalMore(store, a + [before] + b[..n], b[n]);
      Exchange(TotalMass(store, a + [after] + b[..n]), Mass(store, before),
               TotalMass(store, a + [before] + b[..n]), Mass(store, after), Mass(store, b[n]));
    }
  }

  lemma UpdateSplits<T>(s: seq<T>, i: nat, x: T)
    requires i < |s|
    ensures s[..i] + [s[i]] + s[i + 1..] == s && s[..i] + [x] + s[i + 1..] == s[i := x]
  {
  }

  lemma TotalMassUpdate(store: Store, levels: seq<seq<nat>>, i: nat, level: seq<nat>)
    requires i < |levels|
    ensures TotalMass(store, levels[i := level]) + Mass(store, levels[i])
            == TotalMass(store, levels) + Mass(store, level)
  {
    Replaced(store, levels[..i], levels[i], level, levels[i + 1..]);
    UpdateSplits(levels, i, level);
  }

  lemma {:induction false} LevelInTotal(store: Store, levels: seq<seq<nat>>, i: nat)
    requires i < |levels|
    ensures Mass(store, levels[i]) <= TotalMass(store, levels)
  {
    if i < |levels| - 1 {
      LevelInTotal(store, levels[..|levels| - 1], i);
    }
  }

  lemma {:induction false} TotalFrame(store: Store, store': Store, levels: seq<seq<nat>>)
    requires forall level <- levels, f <- level :: f in store && f in store' && store'[f] == store[f]
    ensures TotalMass(store', levels) == TotalMass(store, levels)
  {
    if levels != [] {
      var n := |levels| - 1;
      assert levels[n] in levels;
      MassFrame(store, store', levels[n]);
      forall level <- levels[..n]
        ensures level in levels
      {
      }
      TotalFrame(store, store', levels[..n]);
    }
  }

  // ---------------------------------------------------------------- picked and kept files

  /** The elements at some positions. */
  function Picks<T>(s: seq<T>, r: seq<nat>): seq<T> {
    if r == [] then []
    else if r[|r| - 1] < |s| then Picks(s, r[..|r| - 1]) + [s[r[|r| - 1]]]
    else Picks(s, r[..|r| - 1])
  }

  lemma {:induction false} PicksArePart<T>(s: seq<T>, r: seq<nat>)
    ensures forall x <- Picks(s, r) :: x in s
  {
    if r != [] {
      PicksArePart(s, r[..|r| - 1]);
    }
  }

  // A list of files is what is kept of it and what is picked.
  predicate Splits(store: Store, s: seq<nat>, r: seq<nat>, n: nat)
    requires n <= |s|
  {
    Mass(store, s[..n]) == Mass(store, Kept(s[..n], r)) + Mass(store, Picks(s, r))
  }

  lemma PickedStep(store: Store, s: seq<nat>, r: seq<nat>, n: nat)
    requires Ascending(r) && 0 < n <= |s| && r != [] && r[|r| - 1] == n - 1
    requires Splits(store, s, r[..|r| - 1], n - 1)
    ensures Splits(store, s, r, n)
  {
    var before := r[..|r| - 1];
    MassLast(store, s, n - 1);
    PickLast(store, s, r, n - 1);
    AddToSecond(Mass(store, s[..n - 1]), Mass(store, Kept(s[..n - 1], before)), Mass(store, Picks(s, before)),
                multiset(Content(store, s[n - 1])));
  }

  lemma UnpickedStep(store: Store, s: seq<nat>, r: seq<nat>, n: nat)
    requires 0 < n <= |s| && n - 1 !in r && Splits(store, s, r, n - 1)
    ensures Splits(store, s, r, n)
  {
    MassLast(store, s, n - 1);
    KeepLast(store, s, r, n - 1);
    AddToFirst(Mass(store, s[..n - 1]), Mass(store, Kept(s[..n - 1], r)), Mass(store, Picks(s, r)),
               multiset(Content(store, s[n - 1])));
  }

  lemma {:induction false} KeptAndPicked(store: Store, s: seq<nat>, r: seq<nat>, n: nat)
    requires Ascending(r) && n <= |s| && EndsBefore(r, n)
    ensures Splits(store, s, r, n)
    decreases n
  {
    if n == 0 {
      NothingKept(store, s, r);
    } else if r != [] && r[|r| - 1] == n - 1 {
      BeforeLast(r);
      KeptAndPicked(store, s, r[..|r| - 1], n - 1);
      PickedStep(store, s, r, n);
    } else {
      NotIn(r, n - 1);
      KeptAndPicked(store, s, r, n - 1);
      UnpickedStep(store, s, r, n);
    }
  }

  lemma NothingKept(store: Store, s: seq<nat>, r: seq<nat>)
    requires EndsBefore(r, 0)
    ensures Splits(store, s, r, 0)
  {
  }

  predicate EndsBefore(r: seq<nat>, n: nat) {
    r == [] || r[|r| - 1] < n
  }

  lemma BeforeLast(r: seq<nat>)
    requires Ascending(r) && r != []
    ensures Ascending(r[..|r| - 1]) && EndsBefore(r[..|r| - 1], r[|r| - 1])
  {
  }

  lemma MassLast(store: Store, s: seq<nat>, n: nat)
    requires n < |s|
    ensures Mass(store, s[..n + 1]) == Mass(store, s[..n]) + multiset(Content(store, s[n]))
  {
    assert s[..n + 1][..n] == s[..n];
  }

  lemma AddToFirst(m: multiset<Entry>, x: multiset<Entry>, y: multiset<Entry>, c: multiset<Entry>)
    requires m == x + y
    ensures m + c == (x + c) + y
  {
  }

  lemma AddToSecond(m: multiset<Entry>, x: multiset<Entry>, y: multiset<Entry>, c: multiset<Entry>)
    requires m == x + y
    ensures m + c == x + (y + c)
  {
  }

  lemma KeepLast(store: Store, s: seq<nat>, r: seq<nat>, n: nat)
    requires n < |s| && n !in r
    ensures Mass(store, Kept(s[..n + 1], r)) == Mass(store, Kept(s[..n], r)) + multiset(Content(store, s[n]))
  {
    assert s[..n + 1][..n] == s[..n];
    MassAppend(store, Kept(s[..n], r), [s[n]]);
    MassOne(store, s[n]);
  }

  lemma PickLast(store: Store, s: seq<nat>, r: seq<nat>, n: nat)
    requires Ascending(r) && n < |s| && r != [] && r[|r| - 1] == n
    ensures Kept(s[..n + 1], r) == Kept(s[..n], r[..|r| - 1])
    ensures Mass(store, Picks(s, r)) == Mass(store, Picks(s, r[..|r| - 1])) + multiset(Content(store, s[n]))
  {
    KeptIgnores(s, r, n);
    assert s[..n + 1][..n] == s[..n];
    assert r[|r| - 1] in r;
    MassAppend(store, Picks(s, r[..|r| - 1]), [s[n]]);
    MassOne(store, s[n]);
  }

  lemma MassOne(store: Store, f: nat)
    ensures Mass(store, [f]) == multiset(Content(store, f))
  {
    assert [f][..0] == [];
  }

  lemma NotIn(r: seq<nat>, n: nat)
    requires Ascending(r) && EndsBefore(r, n)
    ensures n !in r
  {
    forall i | 0 <= i < |r|
      ensures r[i] < n
    {
      assert i < |r| - 1 ==> r[i] < r[|r| - 1];
    }
  }

  lemma {:induction false} KeptIgnores<T>(s: seq<T>, r: seq<nat>, n: nat)
    requires n <= |s| && r != [] && r[|r| - 1] >= n
    ensures Kept(s[..n], r) == Kept(s[..n], r[..|r| - 1])
  {
    if n > 0 {
      KeptIgnores(s, r, n - 1);
      assert s[..n][..n - 1] == s[..n - 1];
      assert n - 1 in r <==> n - 1 in r[..|r| - 1];
    }
  }

  // ---------------------------------------------------------------- one compaction

  predicate FilesValid(store: Store, names: seq<nat>) {
    forall f <- names :: f in store && ValidFile(store[f])
  }

  lemma FilesAreFiles(store: Store, names: seq<nat>)
    requires FilesValid(store, names)
    ensures Files(Contents(store, names))
    ensures forall i :: 0 <= i < |names| ==> Content(store, names[i]) != []
  {
    forall i | 0 <= i < |names|
      ensures Content(store, names[i]) != [] && IsSorted(Content(store, names[i]))
    {
      assert names[i] in names;
      var blocks := store[names[i]];
      FlattenFirst(blocks);
      assert blocks[0] in blocks;
    }
  }

  function Next(levels: seq<seq<nat>>, n: nat): seq<nat> {
    if n + 1 < |levels| then levels[n + 1] else []
  }

  /** The manifest after level n lost the removed files and the new files replaced a range of the next. */
  function NewLevels(levels: seq<seq<nat>>, n: nat, removed: seq<nat>, range: (nat, nat),
                     newNames: seq<nat>): (r: seq<seq<nat>>)
    requires n < |levels| && range.0 <= range.1 <= |Next(levels, n)|
    ensures |r| == if n + 1 < |levels| then |levels| else |levels| + 1
  {
    var next := Next(levels, n);
    var grown := if n + 1 < |levels| then levels else levels + [[]];
    grown[n := Kept(levels[n], removed)][n + 1 := next[..range.0] + newNames + next[range.1..]]
  }

  /** How one compaction came about. */
  datatype Step = Step(lo: Entry, hi: Entry, merged: seq<nat>, newNames: seq<nat>, order: seq<Entry>)

  predicate Extends(store: Store, store': Store) {
    forall f <- store :: f in store' && store'[f] == store[f]
  }

  /** What a compaction of the first `count` files of level n merges. */
  ghost predicate Selects(levels: seq<seq<nat>>, store: Store, n: nat, count: nat, s: Step)
    requires n < |levels| && count <= |levels[n]|
  {
    var fs, next := Contents(store, levels[n]), Contents(store, Next(levels, n));
    && IsHull(Contents(store, levels[n][..count]), s.lo, s.hi)
    && s.merged == Picks(levels[n], Removed(fs, n, count, s.lo, s.hi))
                   + Picks(Next(levels, n), Overlapping(next, s.lo, s.hi))
  }

  /** A compaction of the first `count` files of level n. */
  ghost predicate Compacted(levels: seq<seq<nat>>, store: Store, levels': seq<seq<nat>>, store': Store, n: nat,
                            count: nat, s: Step)
    requires n < |levels| && count <= |levels[n]|
  {
    var fs, next := Contents(store, levels[n]), Contents(store, Next(levels, n));
    && Selects(levels, store, n, count, s)
    && IsSorted(s.order) && multiset(s.order) == Mass(store, s.merged) && AllSmall(s.order)
    && WrittenFiles(store, store', s.newNames, Finish(Fold(s.order)))
    && levels' == NewLevels(levels, n, Removed(fs, n, count, s.lo, s.hi), Range(next, s.lo, s.hi), s.newNames)
  }

  /** Every entry of a key and id is stored once. */
  predicate UniqueMass(m: multiset<Entry>) {
    && (forall x <- m, y <- m :: x.key == y.key && x.id == y.id ==> x == y)
    && (forall x <- m :: m[x] == 1)
  }

  ghost predicate ValidDb(levels: seq<seq<nat>>, store: Store) {
    && (forall level <- levels :: FilesValid(store, level))
    && UniqueMass(TotalMass(store, levels))
  }

  // ---------------------------------------------------------------- merging files

  // What MultiwayMerge reads.
  function Disk(store: Store, names: seq<nat>): (files: seq<Blocks>)
    requires FilesValid(store, names)
    ensures |files| == |names| && forall f <- files :: ValidFile(f)
  {
    seq(|names|, i requires 0 <= i < |names| => assert names[i] in names; store[names[i]])
  }

  lemma {:induction false} DiskMass(store: Store, names: seq<nat>)
    requires FilesValid(store, names)
    ensures multiset(AllEntries(Disk(store, names))) == Mass(store, names)
  {
    if names != [] {
      var n := |names| - 1;
      assert names[n] in names;
      DiskMass(store, names[..n]);
      assert Disk(store, names)[..n] == Disk(store, names[..n]);
    }
  }

  lemma UniqueEntries(all: seq<Entry>)
    requires UniqueMass(multiset(all))
    ensures Unique(all)
  {
    forall x <- all
      ensures x in multiset(all)
    {
    }
  }

  lemma GoodFileIsSorted(f: File)
    requires GoodFile(f)
    ensures f != [] && IsSorted(f)
  {
    forall i, j | 0 <= i < j < |f|
      ensures LessEq(f[i], f[j])
    {
      LessEqTotal(f[i], f[j]);
    }
  }

  // WriteNewSSTFile: the blocks that WriteSSTData makes of the entries.
  method WriteNewSSTFile(entries: File) returns (blocks: Blocks)
    requires entries != [] && IsSorted(entries)
    ensures ValidFile(blocks) && Flatten(blocks) == entries
  {
    var sw := new SequentialWriter(4096, []);
    var offsets, size, parts := SST.WriteSSTData(sw, Slices(entries));
    blocks := SplitLike(entries, parts);
    SplitLikeFits(entries, parts);
    forall i | 0 <= i < |blocks|
      ensures blocks[i] != []
    {
      SST.SplitEntries(entries, parts, i);
    }
  }

  predicate Named(store: Store, fileId: nat) {
    forall f <- store :: f < fileId
  }

  // The new files written so far.
  ghost predicate WrittenFiles(store: Store, store': Store, newNames: seq<nat>, files: seq<File>) {
    && Extends(store, store') && FilesValid(store', newNames)
    && (forall f <- newNames :: f !in store)
    && Contents(store', newNames) == files
  }

  lemma WriteOne(store: Store, store': Store, newNames: seq<nat>, files: seq<File>, name: nat, blocks: Blocks)
    requires WrittenFiles(store, store', newNames, files) && name !in store' && ValidFile(blocks)
    ensures WrittenFiles(store, store'[name := blocks], newNames + [name], files + [Flatten(blocks)])
  {
    var s := store'[name := blocks];
    MassFrame(store', s, newNames);
    assert Contents(s, newNames + [name]) == Contents(s, newNames) + [Flatten(blocks)];
  }

  // The files of a merge, written under new names.
  method WriteFiles(store: Store, fileId: nat, files: seq<File>) returns (store': Store, fileId': nat,
                    newNames: seq<nat>)
    requires Named(store, fileId) && forall f <- files :: f != [] && IsSorted(f)
    ensures Named(store', fileId') && WrittenFiles(store, store', newNames, files)
  {
    store', fileId', newNames := store, fileId, [];
    for i := 0 to |files|
      invariant Named(store', fileId') && WrittenFiles(store, store', newNames, files[..i])
    {
      assert files[i] in files;
      var blocks := WriteNewSSTFile(files[i]);
      WriteOne(store, store', newNames, files[..i], fileId', blocks);
      assert files[..i + 1] == files[..i] + [files[i]];
      store' := store'[fileId' := blocks];
      newNames := newNames + [fileId'];
      fileId' := fileId' + 1;
    }
    assert files[..|files|] == files;
  }

  predicate SmallMass(m: multiset<Entry>) {
    forall e <- m :: |Encoded(e)| < 0x20_0000
  }

  lemma SmallIsSmall(es: seq<Entry>, m: multiset<Entry>)
    requires multiset(es) == m
    ensures AllSmall(es) <==> SmallMass(m)
    ensures AllSmall(es) <==> forall e <- es :: |Encoded(e)| < 0x20_0000
  {
    assert forall e :: e in es <==> e in multiset(es);
  }

  // The merge of some files of the store, written back to it.
  method MergeFiles(store: Store, fileId: nat, names: seq<nat>)
    returns (ok: bool, store': Store, fileId': nat, newNames: seq<nat>, ghost order: seq<Entry>)
    requires Named(store, fileId) && FilesValid(store, names) && UniqueMass(Mass(store, names))
    ensures ok <==> forall e <- Mass(store, names) :: |Encoded(e)| < 0x20_0000
    ensures Named(store', fileId') && (!ok ==> store' == store)
    ensures ok ==>
              && IsSorted(order) && multiset(order) == Mass(store, names) && AllSmall(order)
              && WrittenFiles(store, store', newNames, Finish(Fold(order)))
    ensures ok ==> MergedInRuns(order, Contents(store', newNames))
    ensures ok ==> forall i :: 0 <= i < |newNames| ==> |EncodedAll(Content(store', newNames[i]))| < 0x20_0000
  {
    DiskMass(store, names);
    ghost var all := AllEntries(Disk(store, names));
    SmallIsSmall(all, Mass(store, names));
    var pool;
    var result: Result<seq<File>>;
    result, order, pool := MultiwayMerge(Disk(store, names));
    if result == Error {
      return false, store, fileId, [], order;
    }
    SmallIsSmall(order, Mass(store, names));
    UniqueEntries(all);
    UniqueInputIsMerged(all, order);
    forall f <- result.value
      ensures f != [] && IsSorted(f)
    {
      GoodFileIsSorted(f);
    }
    ok := true;
    store', fileId', newNames := WriteFiles(store, fileId, result.value);
  }

  // ---------------------------------------------------------------- the manifest

  // Takes the removed files out of a level.
  method RemoveNames(names: seq<nat>, removed: seq<nat>) returns (kept: seq<nat>)
    requires Ascending(removed) && forall i :: 0 <= i < |removed| ==> removed[i] < |names|
    ensures kept == Kept(names, removed)
  {
    var files := new nat[|names|](i requires 0 <= i < |names| => names[i]);
    assert files[..] == names;
    var n := Remove(files, removed);
    kept := files[..n];
  }

  // TCIO::UpdateManifest.
  method UpdateManifest(levels: seq<seq<nat>>, n: nat, removed: seq<nat>, overlapping: seq<nat>, insertAt: nat,
                        newNames: seq<nat>)
    returns (ok: bool, levels': seq<seq<nat>>)
    requires n < |levels| && Ascending(removed) && forall i :: 0 <= i < |removed| ==> removed[i] < |levels[n]|
    requires Ascending(overlapping) && forall i :: 0 <= i < |overlapping| ==> overlapping[i] < |Next(levels, n)|
    requires overlapping == [] ==> insertAt == 0 || insertAt == |Next(levels, n)|
    ensures ok
    ensures levels' == NewLevels(levels, n, removed,
                                 if overlapping == [] then (insertAt, insertAt)
                                 else (overlapping[0], overlapping[|overlapping| - 1] + 1),
                                 newNames)
  {
    var kept := RemoveNames(levels[n], removed);
    levels' := levels[n := kept];
    if |levels'| <= n + 1 {
      levels' := levels' + [[]];
    }
    var first, second := insertAt, insertAt;
    if overlapping != [] {
      first, second := overlapping[0], overlapping[|overlapping| - 1] + 1;
    }
    var next;
    assert levels'[n + 1] == Next(levels, n);
    ok, next := RearrangeFiles(levels'[n + 1], first, second, newNames);
    levels' := levels'[n + 1 := next];
  }
}
