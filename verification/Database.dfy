/** The database on disk: its tables written to level 0, and its background compaction
    (src/table/db.cc:209-520, src/io/io.cc:35-59). */
module Database {
  import opened Lists
  import opened InternalEntry
  import opened Sorted
  import opened MergeOutput
  import opened Tools
  import opened Levels
  import opened Compaction
  import opened CompactionLaws
  import opened Runs

  /** kDefaultLevelSize. */
  const LEVEL_SIZE: seq<nat> := [
    4, 10, 100, 1000, 10000, 100000, 1000000, 10000000, 100000000, 1000000000, 10000000000, 100000000000
  ]

  // Reading past the table is undefined behaviour: OutsideTable.
  datatype Status = NoError | MergeError | OutsideTable

  // The files of the source level that are compacted.
  method SelectGroup(group: seq<File>, fs: seq<File>, n: nat, count: nat) returns (lo: Entry, hi: Entry,
                     removed: seq<nat>)
    requires group != [] && (forall i :: 0 <= i < |group| ==> group[i] != [])
    requires count <= |fs| && forall i :: 0 <= i < |fs| ==> fs[i] != []
    ensures IsHull(group, lo, hi) && removed == Removed(fs, n, count, lo, hi)
  {
    lo, hi := GroupBoundary(group);
    removed := Interval(0, count);
    if n == 0 {
      var others := LevelZeroOverlaps(fs, count, lo, hi);
      removed := removed + others;
    }
  }

  lemma FilesNotEmpty(store: Store, names: seq<nat>)
    requires FilesValid(store, names)
    ensures forall i :: 0 <= i < |names| ==> Contents(store, names)[i] != []
  {
    FilesAreFiles(store, names);
  }

  /** What CompactSST finds out before it merges. */
  method Select(level: seq<nat>, next: seq<nat>, store: Store, n: nat, count: nat)
    returns (lo: Entry, hi: Entry, removed: seq<nat>, overlapping: seq<nat>, insertAt: nat)
    requires FilesValid(store, level) && FilesValid(store, next) && 0 < count <= |level|
    ensures IsHull(Contents(store, level[..count]), lo, hi)
    ensures removed == Removed(Contents(store, level), n, count, lo, hi)
    ensures overlapping == Overlapping(Contents(store, next), lo, hi)
    ensures overlapping == [] ==> insertAt == InsertAt(Contents(store, next), lo, hi)
  {
    FilesNotEmpty(store, level[..count]);
    FilesNotEmpty(store, level);
    FilesNotEmpty(store, next);
    lo, hi, removed := SelectGroup(Contents(store, level[..count]), Contents(store, level), n, count);
    overlapping, insertAt := ScanNext(Contents(store, next), lo, hi);
  }

  lemma Assemble(levels: seq<seq<nat>>, store: Store, levels': seq<seq<nat>>, store': Store, n: nat, count: nat,
                 s: Step,
                 removed: seq<nat>, overlapping: seq<nat>, insertAt: nat, range: (nat, nat))
    requires n < |levels| && count <= |levels[n]| && Selects(levels, store, n, count, s)
    requires removed == Removed(Contents(store, levels[n]), n, count, s.lo, s.hi)
    requires overlapping == Overlapping(Contents(store, Next(levels, n)), s.lo, s.hi)
    requires overlapping == [] ==> insertAt == InsertAt(Contents(store, Next(levels, n)), s.lo, s.hi)
    requires IsSorted(s.order) && multiset(s.order) == Mass(store, s.merged) && AllSmall(s.order)
    requires WrittenFiles(store, store', s.newNames, Finish(Fold(s.order)))
    requires range == if overlapping == [] then (insertAt, insertAt)
                      else (overlapping[0], overlapping[|overlapping| - 1] + 1)
    requires range.0 <= range.1 <= |Next(levels, n)| && levels' == NewLevels(levels, n, removed, range, s.newNames)
    ensures Compacted(levels, store, levels', store', n, count, s)
  {
    RangeFound(Contents(store, Next(levels, n)), s.lo, s.hi, overlapping, insertAt, range);
  }

  lemma RangeFound(fs: seq<File>, lo: Entry, hi: Entry, overlapping: seq<nat>, insertAt: nat, range: (nat, nat))
    requires overlapping == Overlapping(fs, lo, hi) && (overlapping == [] ==> insertAt == InsertAt(fs, lo, hi))
    requires range == if overlapping == [] then (insertAt, insertAt)
                      else (overlapping[0], overlapping[|overlapping| - 1] + 1)
    ensures range == Range(fs, lo, hi)
  {
  }

  /** TCDB::CompactSST, on values: the manifest and the disk after a compaction of the first `count`
      files of a level. */
  method Compact(levels: seq<seq<nat>>, store: Store, fileId: nat, n: nat, count: nat)
    returns (ok: bool, levels': seq<seq<nat>>, store': Store, fileId': nat, ghost step: Step)
    requires ValidDb(levels, store) && Named(store, fileId) && n < |levels| && 0 < count <= |levels[n]|
    ensures Named(store', fileId') && Selects(levels, store, n, count, step)
    ensures ok <==> SmallMass(Mass(store, step.merged))
    ensures ok ==> Compacted(levels, store, levels', store', n, count, step)
    ensures !ok ==> levels' == levels && store' == store
  {
    assert levels[n] in levels && (Next(levels, n) != [] ==> Next(levels, n) in levels);
    var lo, hi, removed, overlapping, insertAt := Select(levels[n], Next(levels, n), store, n, count);
    var merged := Picks(levels[n], removed) + Picks(Next(levels, n), overlapping);
    step := Step(lo, hi, merged, [], []);
    MergedIsPart(levels, store, n, count, step);
    var newNames;
    ghost var order;
    ok, store', fileId', newNames, order := MergeFiles(store, fileId, merged);
    levels' := levels;
    if ok {
      step := step.(newNames := newNames, order := order);
      levels' := Install(levels, store, store', n, count, step, removed, overlapping, insertAt, newNames);
    }
  }

  // The last part of CompactSST: the manifest with the new files.
  method Install(levels: seq<seq<nat>>, ghost store: Store, ghost store': Store, n: nat, ghost count: nat,
                 ghost s: Step, removed: seq<nat>, overlapping: seq<nat>, insertAt: nat, newNames: seq<nat>)
    returns (levels': seq<seq<nat>>)
    requires n < |levels| && count <= |levels[n]| && Selects(levels, store, n, count, s)
    requires removed == Removed(Contents(store, levels[n]), n, count, s.lo, s.hi)
    requires overlapping == Overlapping(Contents(store, Next(levels, n)), s.lo, s.hi)
    requires overlapping == [] ==> insertAt == InsertAt(Contents(store, Next(levels, n)), s.lo, s.hi)
    requires IsSorted(s.order) && multiset(s.order) == Mass(store, s.merged) && AllSmall(s.order)
    requires newNames == s.newNames && WrittenFiles(store, store', s.newNames, Finish(Fold(s.order)))
    ensures Compacted(levels, store, levels', store', n, count, s)
  {
    RemovedAscends(Contents(store, levels[n]), n, count, s.lo, s.hi);
    OverlappingAscends(Contents(store, Next(levels, n)), s.lo, s.hi);
    var ok;
    ok, levels' := UpdateManifest(levels, n, removed, overlapping, insertAt, newNames);
    ghost var range := if overlapping == [] then (insertAt, insertAt)
                       else (overlapping[0], overlapping[|overlapping| - 1] + 1);
    Assemble(levels, store, levels', store', n, count, s, removed, overlapping, insertAt, range);
  }

  class Database {
    var levels: seq<seq<nat>>  // the manifest's data_files
    var store: Store
    var fileId: nat
    ghost var nextId: nat      // all entry ids on disk are smaller

    ghost predicate Valid()
      reads this
    {
      IsValid(Value()) && Named(store, fileId)
    }

    ghost function Value(): Db
      reads this
    {
      Db(levels, store, nextId)
    }

    /** TCDB::CompactSST for the first `count` files of a level. It fails, and changes nothing, exactly
        when an entry to merge reaches the file limit. */
    method CompactSST(n: nat, count: nat) returns (ok: bool, ghost step: Step)
      requires Valid() && n < |levels| && 0 < count <= |levels[n]|
      modifies this`levels, this`store, this`fileId
      ensures Valid() && Selects(old(levels), old(store), n, count, step)
      ensures ok <==> forall e <- Mass(old(store), step.merged) :: |Encoded(e)| < 0x20_0000
      ensures ok ==> IsMove(old(Value()), Compaction(n, count, step), Value())
      ensures !ok ==> Value() == old(Value())
    {
      ok, levels, store, fileId, step := Compact(levels, store, fileId, n, count);
      if ok {
        CompactionKeeps(old(Value()), Compaction(n, count, step), Value());
      }
    }

    // One compaction of a run of them.
    method Turn(n: nat, count: nat, ghost first: Db, ghost dbs: seq<Db>, ghost moves: seq<Move>)
      returns (ok: bool, ghost dbs': seq<Db>, ghost moves': seq<Move>)
      requires Valid() && n < |levels| && 0 < count <= |levels[n]|
      requires RunTo(first, dbs, moves, Value()) && IsCascade(dbs, moves)
      requires if moves == [] then n == 0 && count == 1 else IsExcess(levels, n, count)
      modifies this`levels, this`store, this`fileId
      ensures Valid() && RunTo(first, dbs', moves', Value()) && IsCascade(dbs', moves')
      ensures SmallMass(Total(old(Value()))) ==> ok && SmallMass(Total(Value()))
      ensures ok ==> n < |levels| && Lowered(old(levels), levels, n, count) && moves' != []
      ensures !ok ==> dbs' == dbs && moves' == moves
    {
      ghost var step;
      ok, step := CompactSST(n, count);
      SelectsSmall(old(Value()), n, count, step);
      dbs', moves' := dbs, moves;
      if ok {
        dbs', moves' := dbs + [Value()], moves + [Compaction(n, count, step)];
        AfterTurn(first, dbs, moves, old(Value()), n, count, step, Value());
      }
    }

    // Compacts the files in excess of a level.
    method Exceed(i: nat, ghost first: Db, ghost dbs: seq<Db>, ghost moves: seq<Move>)
      returns (ok: bool, ghost dbs': seq<Db>, ghost moves': seq<Move>)
      requires Valid() && i < |levels| && i < |LEVEL_SIZE| && |levels[i]| >= LEVEL_SIZE[i] && WithinLimits(levels, i)
      requires RunTo(first, dbs, moves, Value()) && IsCascade(dbs, moves) && moves != []
      modifies this`levels, this`store, this`fileId
      ensures Valid() && RunTo(first, dbs', moves', Value()) && IsCascade(dbs', moves') && moves' != []
      ensures SmallMass(Total(old(Value()))) ==> ok && SmallMass(Total(Value()))
      ensures ok ==> i < |levels| && WithinLimits(levels, i) && |levels[i]| < |old(levels)[i]|
    {
      ghost var before := levels;
      LimitIsPositive(i);
      ok, dbs', moves' := Turn(i, |levels[i]| - LEVEL_SIZE[i] + 1, first, dbs, moves);
      if ok {
        LoweredKeeps(before, levels, i, |before[i]| - LEVEL_SIZE[i] + 1);
      }
    }

    // One turn of the loop of BackgroundCompact: stays at a level that has an excess.
    method Visit(i: nat, ghost first: Db, ghost dbs: seq<Db>, ghost moves: seq<Move>)
      returns (ok: bool, i': nat, ghost dbs': seq<Db>, ghost moves': seq<Move>)
      requires Valid() && i < |levels| && i < |LEVEL_SIZE| && WithinLimits(levels, i)
      requires RunTo(first, dbs, moves, Value()) && IsCascade(dbs, moves) && moves != []
      modifies this`levels, this`store, this`fileId
      ensures Valid() && RunTo(first, dbs', moves', Value()) && IsCascade(dbs', moves') && moves' != []
      ensures SmallMass(Total(old(Value()))) ==> ok && SmallMass(Total(Value()))
      ensures ok ==> i <= i' <= i + 1 && i' <= |levels| && WithinLimits(levels, i')
      ensures ok && i' == i ==> i < |levels| && |levels[i]| < |old(levels)[i]|
    {
      i' := i;
      if |levels[i]| >= LEVEL_SIZE[i] {
        ok, dbs', moves' := Exceed(i, first, dbs, moves);
      } else {
        OneMoreLevel(levels, i);
        ok, i', dbs', moves' := true, i + 1, dbs, moves;
      }
    }

    // The loop of BackgroundCompact over the levels.
    method Cascade(ghost first: Db, ghost dbs0: seq<Db>, ghost moves0: seq<Move>)
      returns (status: Status, ghost dbs: seq<Db>, ghost moves: seq<Move>)
      requires Valid() && RunTo(first, dbs0, moves0, Value()) && IsCascade(dbs0, moves0) && moves0 != []
      modifies this`levels, this`store, this`fileId
      ensures Valid() && RunTo(first, dbs, moves, Value()) && IsCascade(dbs, moves) && moves != []
      ensures status == NoError ==> |levels| <= |LEVEL_SIZE| && WithinLimits(levels, |levels|)
      ensures status == OutsideTable ==> |levels| > |LEVEL_SIZE| && WithinLimits(levels, |LEVEL_SIZE|)
      ensures SmallMass(Total(old(Value()))) ==> status != MergeError && SmallMass(Total(Value()))
    {
      var i: nat, ok := 0, true;
      dbs, moves := dbs0, moves0;
      while ok && i < |levels| && i < |LEVEL_SIZE|
        invariant Valid() && RunTo(first, dbs, moves, Value())
        invariant IsCascade(dbs, moves) && moves != []
        invariant ok ==> WithinLimits(levels, i)
        invariant SmallMass(Total(old(Value()))) ==> ok && SmallMass(Total(Value()))
        decreases ok, |LEVEL_SIZE| - i, if i < |levels| then |levels[i]| else 0
      {
        ok, i, dbs, moves := Visit(i, first, dbs, moves);
      }
      status := CascadeEnds(levels, i, ok);
    }

    /** TCDB::BackgroundCompact: the first file of level 0, and then, for the first level that has as
        many files as its limit or more, those in excess, until every level is below its limit. It
        terminates for every content of the levels. If all entries are small enough for a file, the
        only failure is that the cascade has filled the table of limits. */
    method BackgroundCompact() returns (status: Status, ghost dbs: seq<Db>, ghost moves: seq<Move>)
      requires Valid() && levels != [] && levels[0] != []
      modifies this`levels, this`store, this`fileId
      ensures Valid() && RunTo(old(Value()), dbs, moves, Value()) && IsCascade(dbs, moves)
      ensures status == NoError ==> |levels| <= |LEVEL_SIZE| && WithinLimits(levels, |levels|)
      ensures status == OutsideTable ==> |levels| > |LEVEL_SIZE| && WithinLimits(levels, |LEVEL_SIZE|)
      ensures status != MergeError ==> moves != []
      ensures SmallMass(Total(old(Value()))) ==> status != MergeError && SmallMass(Total(Value()))
    {
      ghost var first := Value();
      var ok;
      ok, dbs, moves := Turn(0, 1, first, [first], []);
      if !ok {
        return MergeError, dbs, moves;
      }
      status, dbs, moves := Cascade(first, dbs, moves);
    }

    /** TCIO::WriteLevel0File: the entries of a memory table become the last file of level 0. */
    method WriteLevel0File(es: File, ghost nextId': nat) returns (ghost m: Move)
      requires Valid() && es != [] && IsSorted(es) && nextId <= nextId' && NewEntries(es, nextId, nextId')
      modifies this
      ensures Valid() && m.Flush? && Flatten(m.blocks) == es && IsMove(old(Value()), m, Value())
      ensures levels == WithFile(old(levels), old(fileId)) && nextId == nextId'
      ensures levels != [] && levels[0] == (if old(levels) == [] then [] else old(levels)[0]) + [old(fileId)]
    {
      var blocks := WriteNewSSTFile(es);
      m := Flush(fileId, blocks);
      levels := if levels == [] then [[fileId]] else levels[0 := levels[0] + [fileId]];
      store, fileId, nextId := store[fileId := blocks], fileId + 1, nextId';
      FlushIsValid(old(Value()), m.name, m.blocks, Value());
    }

    // The compaction of MVCCWriteLevel0, if level 0 is full.
    method MakeRoom() returns (status: Status, ghost dbs: seq<Db>, ghost moves: seq<Move>)
      requires Valid()
      modifies this`levels, this`store, this`fileId
      ensures Valid() && RunTo(old(Value()), dbs, moves, Value()) && IsCascade(dbs, moves)
      ensures HasRoom(old(levels)) ==> status == NoError && moves == []
      ensures !HasRoom(old(levels)) && status == NoError ==> moves != []
      ensures status == NoError ==> HasRoom(levels)
      ensures SmallMass(Total(old(Value()))) ==> status != MergeError
    {
      status, dbs, moves := NoError, [Value()], [];
      if levels != [] && |levels[0]| >= LEVEL_SIZE[0] {
        status, dbs, moves := BackgroundCompact();
      }
    }

    /** TCDB::MVCCWriteLevel0: compacts if level 0 has four files, and only then; if that did not fail,
        it writes the table. */
    method MVCCWriteLevel0(es: File, ghost nextId': nat)
      returns (status: Status, ghost dbs: seq<Db>, ghost moves: seq<Move>)
      requires Valid() && es != [] && IsSorted(es) && nextId <= nextId' && NewEntries(es, nextId, nextId')
      modifies this
      ensures Valid() && RunTo(old(Value()), dbs, moves, Value())
      ensures CascadeAndWrite(old(levels), dbs, moves, status, es)
      ensures History(old(Value()), moves)
              == Total(old(Value())) + if status == NoError then multiset(es) else multiset{}
      ensures status == NoError ==> levels != [] && 0 < |levels[0]| <= 4
      ensures SmallMass(Total(old(Value()))) ==> status != MergeError
    {
      ghost var first := Value();
      status, dbs, moves := MakeRoom();
      AfterCascade(old(levels), first, dbs, moves, status, es);
      if status == NoError {
        ghost var before := Value();
        ghost var m := WriteLevel0File(es, nextId');
        AddFlush(old(levels), first, dbs, moves, before, m, Value(), es);
        dbs, moves := dbs + [Value()], moves + [m];
      }
    }
  }

  /** What MVCCWriteLevel0 does: a cascade if and only if level 0 has no room, and, if that has not failed,
      the write of the table. */
  ghost predicate CascadeAndWrite(levels: seq<seq<nat>>, dbs: seq<Db>, moves: seq<Move>, status: Status,
                                  es: seq<Entry>) {
    var n := if status == NoError then |moves| - 1 else |moves|;
    && 0 <= n <= |moves| < |dbs| && IsCascade(dbs[..n + 1], moves[..n])
    && (HasRoom(levels) ==> status == NoError && n == 0)
    && (!HasRoom(levels) && status == NoError ==> n > 0)
    && (status == NoError ==> moves[n].Flush? && Added(moves[n]) == multiset(es))
  }

  lemma AfterCascade(levels: seq<seq<nat>>, first: Db, dbs: seq<Db>, moves: seq<Move>, status: Status, es: seq<Entry>)
    requires IsCascade(dbs, moves)
    requires HasRoom(levels) ==> status == NoError && moves == []
    ensures status != NoError ==> CascadeAndWrite(levels, dbs, moves, status, es)
    ensures History(first, moves) == Total(first)
  {
    HistoryOfCascade(first, dbs, moves);
    assert dbs[..|moves| + 1] == dbs && moves[..|moves|] == moves;
  }

  lemma AddFlush(levels: seq<seq<nat>>, first: Db, dbs: seq<Db>, moves: seq<Move>, before: Db, m: Move, after: Db,
                 es: seq<Entry>)
    requires RunTo(first, dbs, moves, before) && IsMove(before, m, after) && IsCascade(dbs, moves)
    requires m.Flush? && Flatten(m.blocks) == es
    requires (HasRoom(levels) ==> moves == []) && (!HasRoom(levels) ==> moves != [])
    ensures RunTo(first, dbs + [after], moves + [m], after)
    ensures CascadeAndWrite(levels, dbs + [after], moves + [m], NoError, es)
    ensures History(first, moves + [m]) == History(first, moves) + multiset(es)
  {
    ExtendTo(first, dbs, moves, before, m, after);
    HistoryMore(first, moves, m);
    Appended(dbs, after);
    Appended(moves, m);
  }

  predicate HasRoom(levels: seq<seq<nat>>) {
    levels == [] || |levels[0]| < 4
  }

  // How the loop over the levels has ended.
  function CascadeEnds(levels: seq<seq<nat>>, i: nat, ok: bool): (status: Status)
    requires ok ==> WithinLimits(levels, i) && (i == |levels| || i == |LEVEL_SIZE|)
    ensures status == MergeError <==> !ok
    ensures status == NoError ==> |levels| <= |LEVEL_SIZE| && WithinLimits(levels, |levels|)
    ensures status == OutsideTable ==> |levels| > |LEVEL_SIZE| && WithinLimits(levels, |LEVEL_SIZE|)
  {
    if !ok then MergeError else if i < |levels| then OutsideTable else NoError
  }

  /** The files of a level above its limit: without them it has one file less than the limit. All levels
      before it are below theirs. */
  predicate IsExcess(levels: seq<seq<nat>>, n: nat, count: nat) {
    && n < |levels| && n < |LEVEL_SIZE| && |levels[n]| >= LEVEL_SIZE[n] && |levels[n]| - count == LEVEL_SIZE[n] - 1
    && forall i :: 0 <= i < n ==> |levels[i]| < LEVEL_SIZE[i]
  }

  /** The compactions of a cascade: the first file of level 0, and then always an excess. */
  ghost predicate IsCascade(dbs: seq<Db>, moves: seq<Move>)
    decreases |moves|
  {
    var n := |moves| - 1;
    |dbs| == |moves| + 1 && (moves != [] ==> IsCascade(dbs[..n + 1], moves[..n]) && IsTurn(n, dbs[n], moves[n]))
  }

  predicate IsTurn(k: nat, d: Db, m: Move) {
    && m.Compaction?
    && if k == 0 then m.level == 0 && m.count == 1 else IsExcess(d.levels, m.level, m.count)
  }

  /** The k-th of them. */
  lemma {:induction false} TurnOfCascade(dbs: seq<Db>, moves: seq<Move>, k: nat)
    requires IsCascade(dbs, moves) && k < |moves|
    ensures moves[k].Compaction? && (k == 0 ==> moves[k].level == 0 && moves[k].count == 1)
    ensures k > 0 ==>
              var l := moves[k].level;
              && l < |dbs[k].levels| && l < |LEVEL_SIZE| && |dbs[k].levels[l]| >= LEVEL_SIZE[l]
              && |dbs[k].levels[l]| - moves[k].count == LEVEL_SIZE[l] - 1
              && forall i :: 0 <= i < l ==> |dbs[k].levels[i]| < LEVEL_SIZE[i]
    decreases |moves|
  {
    var n := |moves| - 1;
    if k < n {
      TurnOfCascade(dbs[..n + 1], moves[..n], k);
    }
  }

  lemma CascadeMore(dbs: seq<Db>, moves: seq<Move>, d: Db, n: nat, count: nat, s: Step)
    requires IsCascade(dbs, moves) && IsTurn(|moves|, dbs[|moves|], Compaction(n, count, s))
    ensures IsCascade(dbs + [d], moves + [Compaction(n, count, s)])
  {
    Appended(dbs, d);
    Appended(moves, Compaction(n, count, s));
    CascadeByLast(dbs + [d], moves + [Compaction(n, count, s)]);
  }

  lemma CascadeByLast(dbs: seq<Db>, moves: seq<Move>)
    requires |dbs| == |moves| + 1 && moves != [] && IsCascade(dbs[..|moves|], moves[..|moves| - 1])
    requires IsTurn(|moves| - 1, dbs[|moves| - 1], moves[|moves| - 1])
    ensures IsCascade(dbs, moves)
  {
  }

  /** The limits: 4 files, then 10, then always ten times as many, for twelve levels. */
  lemma Limits(i: nat)
    requires 1 <= i < 11
    ensures |LEVEL_SIZE| == 12 && LEVEL_SIZE[0] == 4 && LEVEL_SIZE[1] == 10
    ensures LEVEL_SIZE[i + 1] == 10 * LEVEL_SIZE[i]
  {
  }

  lemma SelectsSmall(d: Db, n: nat, count: nat, s: Step)
    requires IsValid(d) && n < |d.levels| && count <= |d.levels[n]| && Selects(d.levels, d.store, n, count, s)
    ensures SmallMass(Total(d)) ==> SmallMass(Mass(d.store, s.merged))
  {
    MergedIsPart(d.levels, d.store, n, count, s);
  }

  lemma AfterTurn(first: Db, dbs: seq<Db>, moves: seq<Move>, d: Db, n: nat, count: nat, s: Step, d': Db)
    requires IsValid(d) && IsMove(d, Compaction(n, count, s), d')
    requires RunTo(first, dbs, moves, d) && IsCascade(dbs, moves)
    requires if moves == [] then n == 0 && count == 1 else IsExcess(d.levels, n, count)
    ensures RunTo(first, dbs + [d'], moves + [Compaction(n, count, s)], d')
    ensures IsCascade(dbs + [d'], moves + [Compaction(n, count, s)])
    ensures Lowered(d.levels, d'.levels, n, count)
    ensures SmallMass(Total(d)) ==> SmallMass(Total(d'))
  {
    ExtendTo(first, dbs, moves, d, Compaction(n, count, s), d');
    CascadeMore(dbs, moves, d', n, count, s);
    CompactedLowers(d.levels, d.store, d'.levels, d'.store, n, count, s);
    CompactionKeeps(d, Compaction(n, count, s), d');
  }

  lemma {:induction false} HistoryOfCascade(first: Db, dbs: seq<Db>, moves: seq<Move>)
    requires IsCascade(dbs, moves)
    ensures History(first, moves) == Total(first)
  {
    if moves != [] {
      var n := |moves| - 1;
      HistoryOfCascade(first, dbs[..n + 1], moves[..n]);
    }
  }

  /** The first k levels have fewer files than their limits. */
  predicate WithinLimits(levels: seq<seq<nat>>, k: nat) {
    k <= |levels| && k <= |LEVEL_SIZE| && forall i :: 0 <= i < k ==> |levels[i]| < LEVEL_SIZE[i]
  }

  // Level n has lost `count` files at least, and the levels before it are the same.
  predicate Lowered(levels: seq<seq<nat>>, levels': seq<seq<nat>>, n: nat, count: nat) {
    && n < |levels| <= |levels'| && |levels'[n]| + count <= |levels[n]|
    && forall i :: 0 <= i < n ==> levels'[i] == levels[i]
  }

  lemma LoweredKeeps(levels: seq<seq<nat>>, levels': seq<seq<nat>>, n: nat, count: nat)
    requires Lowered(levels, levels', n, count) && WithinLimits(levels, n)
    ensures WithinLimits(levels', n)
  {
  }

  lemma OneMoreLevel(levels: seq<seq<nat>>, k: nat)
    requires WithinLimits(levels, k) && k < |levels| && k < |LEVEL_SIZE| && |levels[k]| < LEVEL_SIZE[k]
    ensures WithinLimits(levels, k + 1)
  {
  }

  lemma LimitIsPositive(i: nat)
    requires i < |LEVEL_SIZE|
    ensures LEVEL_SIZE[i] > 0
  {
  }

  lemma {:induction false} KeptLength(s: seq<nat>, r: seq<nat>, count: nat, n: nat)
    requires n <= |s| && forall k :: 0 <= k < count ==> k in r
    ensures |Kept(s[..n], r)| <= if n <= count then 0 else n - count
  {
    if n > 0 {
      KeptLength(s, r, count, n - 1);
      assert s[..n][..n - 1] == s[..n - 1];
    }
  }

  lemma GroupLeaves(level: seq<nat>, fs: seq<File>, n: nat, count: nat, lo: Entry, hi: Entry)
    requires count <= |level|
    ensures |Kept(level, Removed(fs, n, count, lo, hi))| + count <= |level|
  {
    var r := Removed(fs, n, count, lo, hi);
    forall k | 0 <= k < count
      ensures k in r
    {
      assert r[k] == Interval(0, count)[k];
    }
    KeptLength(level, r, count, |level|);
    assert level[..|level|] == level;
  }

  lemma CompactedLowers(levels: seq<seq<nat>>, store: Store, levels': seq<seq<nat>>, store': Store, n: nat,
                        count: nat, s: Step)
    requires n < |levels| && count <= |levels[n]| && Compacted(levels, store, levels', store', n, count, s)
    ensures Lowered(levels, levels', n, count)
  {
    var r := Removed(Contents(store, levels[n]), n, count, s.lo, s.hi);
    GroupLeaves(levels[n], Contents(store, levels[n]), n, count, s.lo, s.hi);
    NewLevelsAt(levels, n, r, Range(Contents(store, Next(levels, n)), s.lo, s.hi), s.newNames);
  }
}
