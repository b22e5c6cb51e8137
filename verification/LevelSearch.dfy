/** Looking a key up in a level of SST files (src/table/db.cc:691-749). */
module LevelSearch {
  import opened Bytes
  import opened Lists
  import opened InternalEntry
  import opened Order
  import opened Sorted
  import opened Bloom
  import opened SST
  import opened Lookup
  import opened Levels

  /** What a file was written from. */
  datatype Origin = Origin(es: seq<Entry>, blocks: seq<Strings>, filter: seq<byte>, footer: Footer)

  ghost predicate Readable(file: seq<byte>, o: Origin, seeds: seq<nat>, hash: Hash) {
    && SST.IsFile(file, Slices(o.es), o.blocks, o.filter, o.footer) && |file| < U32_MODULUS
    && IsFilter(o.filter, Bloom.Keys(o.es), seeds, hash)
    && o.es != [] && IsSorted(o.es) && (forall e <- o.es :: Encodable(e) && e.key != [])
  }

  function Originals(origins: seq<Origin>): (r: seq<File>)
    ensures |r| == |origins| && forall i :: 0 <= i < |origins| ==> r[i] == origins[i].es
  {
    seq(|origins|, i requires 0 <= i < |origins| => origins[i].es)
  }

  // The key is in the range of the file.
  predicate Covers(es: File, key: seq<byte>) {
    es != [] && !KeyLess(Last(es).key, key) && !KeyLess(key, First(es).key)
  }

  lemma OutsideIsAbsent(es: File, key: seq<byte>)
    requires es != [] && IsSorted(es) && !Covers(es, key)
    ensures !Present(es, key)
  {
    forall i | 0 <= i < |es|
      ensures es[i].key != key
    {
      KeyIrreflexive(key);
      if i > 0 {
        KeysInOrder(es, 0, i);
      }
      if i < |es| - 1 {
        KeysInOrder(es, i, |es| - 1);
      }
    }
  }

  // In a sorted level, a key that a file covers but does not hold is in no later file.
  lemma AbsentLater(fs: seq<File>, key: seq<byte>, i: nat, j: nat)
    requires SortedLevel(fs) && i < j < |fs| && fs[i] != [] && Covers(fs[i], key) && !Present(fs[i], key)
    ensures fs[j] != [] && !Present(fs[j], key)
  {
    FilesInOrder(fs, i, j);
    FilesOfSortedLevel(fs, j);
    var last, first := Last(fs[i]), First(fs[j]);
    assert last in fs[i];
    KeyTrichotomy(last.key, key);
    KeyIrreflexive(key);
    if first.key != last.key {
      KeyTransitive(key, last.key, first.key);
    }
    KeyAsymmetric(key, first.key);
    OutsideIsAbsent(fs[j], key);
  }

  // Reads the boundary of a file and compares the query with it.
  method InRange(query: seq<byte>, file: seq<byte>, ghost o: Origin, ghost q: Entry, ghost seeds: seq<nat>,
                 ghost hash: Hash)
    returns (inRange: bool, footer: Footer)
    requires Readable(file, o, seeds, hash) && PointsTo(query, q) && q.key != []
    ensures footer == o.footer && (inRange <==> Covers(o.es, q.key))
  {
    var minKey, maxKey;
    footer, minKey, maxKey := ReadSSTFooter(file, Slices(o.es), o.blocks, o.filter, o.footer);
    SlicesAt(o.es, 0);
    SlicesAt(o.es, |o.es| - 1);
    var le := QueryLessOrEquals(query, maxKey, q, Last(o.es));
    var ge := QueryGreaterOrEquals(query, minKey, q, First(o.es));
    inRange := le && ge;
  }

  // One file: nothing, if its range does not cover the key.
  method SearchFile(query: seq<byte>, file: seq<byte>, seeds: seq<nat>, hash: Hash, ghost o: Origin, ghost q: Entry)
    returns (inRange: bool, ret: seq<byte>)
    requires Readable(file, o, seeds, hash) && PointsTo(query, q) && q.key != []
    ensures Answers(ret, o.es, q.key) && (inRange <==> Covers(o.es, q.key)) && (!inRange ==> ret == [])
  {
    var footer;
    inRange, footer := InRange(query, file, o, q, seeds, hash);
    if inRange {
      ghost var probes;
      ret, probes := GetFromSST(query, file, footer, seeds, hash, o.es, o.blocks, o.filter, q);
    } else {
      OutsideIsAbsent(o.es, q.key);
      ret := [];
    }
  }

  lemma FoundInFile(ret: seq<byte>, fs: seq<File>, i: nat, key: seq<byte>)
    requires i < |fs| && ret != [] && Answers(ret, fs[i], key)
    ensures Answers(ret, Flatten(fs), key)
  {
    PartsBelong(fs, i);
  }

  predicate AbsentUpTo(fs: seq<File>, key: seq<byte>, i: nat) {
    i <= |fs| && forall j :: 0 <= j < i ==> !Present(fs[j], key)
  }

  lemma AbsentStep(fs: seq<File>, key: seq<byte>, i: nat)
    requires i < |fs| && AbsentUpTo(fs, key, i) && Answers([], fs[i], key)
    ensures AbsentUpTo(fs, key, i + 1)
  {
  }

  /** The first file whose range covers the key. */
  function FirstCovering(fs: seq<File>, key: seq<byte>, i: nat): (c: nat)
    requires i <= |fs|
    ensures i <= c <= |fs| && (c < |fs| ==> Covers(fs[c], key))
    ensures forall j :: i <= j < c ==> !Covers(fs[j], key)
    decreases |fs| - i
  {
    if i == |fs| || Covers(fs[i], key) then i else FirstCovering(fs, key, i + 1)
  }

  /** The search of a level below level 0 has to go no further than the first covering file. */
  predicate FirstDecides(fs: seq<File>, key: seq<byte>) {
    var c := FirstCovering(fs, key, 0);
    (c < |fs| && Present(fs[c], key)) || !Present(Flatten(fs), key)
  }

  predicate NoneCovers(fs: seq<File>, key: seq<byte>, i: nat) {
    i <= |fs| && forall j :: 0 <= j < i ==> !Covers(fs[j], key)
  }

  lemma FirstIs(fs: seq<File>, key: seq<byte>, i: nat, c: nat)
    requires i <= c < |fs| && Covers(fs[c], key) && NoneCovers(fs, key, c)
    ensures FirstCovering(fs, key, i) == c
    decreases c - i
  {
    if i < c {
      FirstIs(fs, key, i + 1, c);
    }
  }

  /** An answer is right exactly when the search may go no further than the first covering file. */
  predicate RightIfDecided(ret: seq<byte>, fs: seq<File>, level: nat, key: seq<byte>) {
    Answers(ret, Flatten(fs), key) <==> level == 0 || FirstDecides(fs, key)
  }

  // What the search has seen of the first i files.
  predicate Searched(fs: seq<File>, level: nat, key: seq<byte>, i: nat) {
    AbsentUpTo(fs, key, i) && (level > 0 ==> NoneCovers(fs, key, i))
  }

  // The search ends in file i: it has an answer there, or level 0 is behind it and the file covers the key.
  lemma EndsInFile(ret: seq<byte>, fs: seq<File>, level: nat, key: seq<byte>, i: nat)
    requires i < |fs| && IsSorted(fs[i]) && Searched(fs, level, key, i) && Answers(ret, fs[i], key)
    requires ret != [] || (level > 0 && Covers(fs[i], key))
    ensures RightIfDecided(ret, fs, level, key)
    ensures ret != [] ==> Answers(ret, Flatten(fs), key)
  {
    if ret != [] {
      FoundInFile(ret, fs, i, key);
      if !Covers(fs[i], key) {
        OutsideIsAbsent(fs[i], key);
      }
    }
    if level > 0 {
      FirstIs(fs, key, 0, i);
    }
  }

  lemma GoesOn(fs: seq<File>, level: nat, key: seq<byte>, i: nat)
    requires i < |fs| && Searched(fs, level, key, i) && Answers([], fs[i], key) && (level > 0 ==> !Covers(fs[i], key))
    ensures Searched(fs, level, key, i + 1)
  {
    AbsentStep(fs, key, i);
  }

  lemma EndsNowhere(fs: seq<File>, level: nat, key: seq<byte>)
    requires Searched(fs, level, key, |fs|)
    ensures RightIfDecided([], fs, level, key)
  {
    NotInAny(fs, key);
  }

  /** An answer from file i, the first one of the level that holds the key. */
  predicate FromFile(ret: seq<byte>, fs: seq<File>, key: seq<byte>, i: nat) {
    i < |fs| && Answers(ret, fs[i], key) && forall j :: 0 <= j < i ==> !Present(fs[j], key)
  }

  /** TCDB::SearchLevel: its answer is right for level 0; below level 0 it is right if and only if the
      first file that covers the key holds it or no file does. What it returns is never wrong, and it
      is from the first file that holds the key. */
  method SearchLevel(query: seq<byte>, files: seq<seq<byte>>, level: nat, seeds: seq<nat>, hash: Hash,
                     ghost origins: seq<Origin>, ghost q: Entry)
    returns (ret: seq<byte>)
    requires |files| == |origins| && forall i :: 0 <= i < |files| ==> Readable(files[i], origins[i], seeds, hash)
    requires PointsTo(query, q) && q.key != []
    ensures RightIfDecided(ret, Originals(origins), level, q.key)
    ensures ret != [] ==> Answers(ret, Flatten(Originals(origins)), q.key)
    ensures ret != [] ==> exists i :: FromFile(ret, Originals(origins), q.key, i)
  {
    ghost var fs := Originals(origins);
    for i := 0 to |files|
      invariant Searched(fs, level, q.key, i)
    {
      var inRange;
      inRange, ret := SearchFile(query, files[i], seeds, hash, origins[i], q);
      if ret != [] || (inRange && level > 0) {
        EndsInFile(ret, fs, level, q.key, i);
        assert ret != [] ==> FromFile(ret, fs, q.key, i);
        return;
      }
      GoesOn(fs, level, q.key, i);
    }
    EndsNowhere(fs, level, q.key);
    ret := [];
  }

  /** In a level whose files are in order, the first covering file always decides. */
  lemma SortedFirstDecides(fs: seq<File>, key: seq<byte>)
    requires SortedLevel(fs)
    ensures FirstDecides(fs, key)
  {
    var c := FirstCovering(fs, key, 0);
    forall j | 0 <= j < c
      ensures !Present(fs[j], key)
    {
      FilesOfSortedLevel(fs, j);
      OutsideIsAbsent(fs[j], key);
    }
    if c == |fs| {
      NotInAny(fs, key);
    } else if !Present(fs[c], key) {
      AbsentFrom(fs, key, c);
    }
  }

  lemma NotInAny(fs: seq<File>, key: seq<byte>)
    requires AbsentUpTo(fs, key, |fs|)
    ensures Answers([], Flatten(fs), key)
  {
    AbsentEverywhere(fs, key);
  }

  lemma AbsentFrom(fs: seq<File>, key: seq<byte>, i: nat)
    requires SortedLevel(fs) && i < |fs| && fs[i] != [] && Covers(fs[i], key)
    requires AbsentUpTo(fs, key, i + 1)
    ensures Answers([], Flatten(fs), key)
  {
    forall j | i < j < |fs|
      ensures !Present(fs[j], key)
    {
      AbsentLater(fs, key, i, j);
    }
    NotInAny(fs, key);
  }

  // ---------------------------------------------------------------- which entry it is

  /** The files of level 0 in the order they were written: ids increase from file to file. */
  predicate WrittenInOrder(fs: seq<File>) {
    forall i, j :: 0 <= i < j < |fs| ==> forall x <- fs[i], y <- fs[j] :: x.id < y.id
  }

  // The newest entry of a key in some entries.
  predicate NewestOf(e: Entry, es: seq<Entry>) {
    e in es && forall x <- es :: x.key == e.key ==> x.id <= e.id
  }

  /** The search of level 0 goes from the oldest file to the newest. So an entry e that it finds in
      file i is the newest of its key in the level if and only if it is in its file, and no later file
      holds the key. */
  lemma OldestFileAnswers(fs: seq<File>, e: Entry, i: nat)
    requires WrittenInOrder(fs) && i < |fs| && e in fs[i] && forall j :: 0 <= j < i ==> !Present(fs[j], e.key)
    ensures NewestOf(e, Flatten(fs)) <==> NewestOf(e, fs[i]) && forall j :: i < j < |fs| ==> !Present(fs[j], e.key)
  {
    FlattenHas(fs, i, e);
    if NewestOf(e, Flatten(fs)) {
      InFlatten(fs, e);
    } else {
      var x :| x in Flatten(fs) && x.key == e.key && x.id > e.id;
      var k := FlattenMember(fs, x);
      assert Present(fs[k], e.key);
    }
  }

  lemma InFlatten(fs: seq<File>, e: Entry)
    requires NewestOf(e, Flatten(fs))
    ensures forall k, x | 0 <= k < |fs| && x in fs[k] && x.key == e.key :: x.id <= e.id
  {
    forall k, x | 0 <= k < |fs| && x in fs[k] && x.key == e.key
      ensures x.id <= e.id
    {
      FlattenHas(fs, k, x);
    }
  }

  /** A key that was written to two files of level 0 is read with its older value. */
  lemma StaleRead(key: seq<byte>, ret: seq<byte>)
    requires exists i :: FromFile(ret, [[Entry(key, 0, Insert, [])], [Entry(key, 1, Insert, [1])]], key, i)
    ensures ret == Encoded(Entry(key, 0, Insert, []))
  {
    var fs := [[Entry(key, 0, Insert, [])], [Entry(key, 1, Insert, [1])]];
    assert fs[0][0] in fs[0];
    assert Present(fs[0], key);
  }
}
