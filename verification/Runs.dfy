/** Runs of the store on disk: tables that are written to level 0, and compactions, in any order
    (src/table/db.cc:209-520). */
module Runs {
  import opened Lists
  import opened InternalEntry
  import opened Order
  import opened MergeOutput
  import opened Merge
  import opened Levels
  import opened Compaction
  import opened CompactionLaws

  /** The manifest, the files, and the next entry id. */
  datatype Db = Db(levels: seq<seq<nat>>, store: Store, nextId: nat)

  datatype Move =
    | Compaction(level: nat, count: nat, step: Step)  // of the first `count` files of a level
    | Flush(name: nat, blocks: Blocks)                // a memory table becomes the last file of level 0

  function Total(d: Db): multiset<Entry> {
    TotalMass(d.store, d.levels)
  }

  /** Entries of a memory table: they have taken ids from `from` on. */
  predicate NewEntries(es: seq<Entry>, from: nat, to: nat) {
    && (forall e <- es :: from <= e.id < to)
    && (forall i, j :: 0 <= i < j < |es| ==> es[i].id != es[j].id)
  }

  function WithFile(levels: seq<seq<nat>>, name: nat): seq<seq<nat>> {
    if levels == [] then [[name]] else levels[0 := levels[0] + [name]]
  }

  predicate IsFlush(d: Db, name: nat, blocks: Blocks, d': Db) {
    && name !in d.store && ValidFile(blocks) && d.nextId <= d'.nextId
    && NewEntries(Flatten(blocks), d.nextId, d'.nextId)
    && d'.levels == WithFile(d.levels, name) && d'.store == d.store[name := blocks]
  }

  ghost predicate IsMove(d: Db, m: Move, d': Db) {
    match m
    case Compaction(level, count, step) =>
      && level < |d.levels| && 0 < count <= |d.levels[level]| && d'.nextId == d.nextId
      && Compacted(d.levels, d.store, d'.levels, d'.store, level, count, step)
    case Flush(name, blocks) => IsFlush(d, name, blocks, d')
  }

  ghost predicate IsRun(dbs: seq<Db>, moves: seq<Move>)
    decreases |moves|
  {
    var n := |moves| - 1;
    |dbs| == |moves| + 1 && (moves != [] ==> IsRun(dbs[..n + 1], moves[..n]) && IsMove(dbs[n], moves[n], dbs[n + 1]))
  }

  /** A run from one state to another. */
  ghost predicate RunTo(first: Db, dbs: seq<Db>, moves: seq<Move>, last: Db) {
    IsRun(dbs, moves) && dbs[0] == first && dbs[|moves|] == last
  }

  lemma Appended<T>(s: seq<T>, x: T)
    ensures (s + [x])[..|s|] == s && (s + [x])[|s|] == x
    ensures s != [] ==> (s + [x])[|s| - 1] == s[|s| - 1]
  {
  }

  lemma RunByLast(dbs: seq<Db>, moves: seq<Move>)
    requires |dbs| == |moves| + 1 && moves != [] && IsRun(dbs[..|moves|], moves[..|moves| - 1])
    requires IsMove(dbs[|moves| - 1], moves[|moves| - 1], dbs[|moves|])
    ensures IsRun(dbs, moves)
  {
  }

  lemma ExtendRun(dbs: seq<Db>, moves: seq<Move>, m: Move, d: Db)
    requires IsRun(dbs, moves) && IsMove(dbs[|moves|], m, d)
    ensures IsRun(dbs + [d], moves + [m])
  {
    Appended(dbs, d);
    Appended(moves, m);
    RunByLast(dbs + [d], moves + [m]);
  }

  lemma ExtendTo(first: Db, dbs: seq<Db>, moves: seq<Move>, last: Db, m: Move, d: Db)
    requires RunTo(first, dbs, moves, last) && IsMove(last, m, d)
    ensures RunTo(first, dbs + [d], moves + [m], d)
  {
    ExtendRun(dbs, moves, m, d);
  }

  predicate IdsBelow(m: multiset<Entry>, id: nat) {
    forall e <- m :: e.id < id
  }

  ghost predicate IsValid(d: Db) {
    ValidDb(d.levels, d.store) && IdsBelow(Total(d), d.nextId)
  }

  // What a move adds to what has ever been written.
  function Added(m: Move): multiset<Entry> {
    if m.Flush? then multiset(Flatten(m.blocks)) else multiset{}
  }

  /** All entries there were at the start of a run, and all that were written since. */
  function History(first: Db, moves: seq<Move>): multiset<Entry> {
    if moves == [] then Total(first)
    else History(first, moves[..|moves| - 1]) + Added(moves[|moves| - 1])
  }

  lemma HistoryMore(first: Db, moves: seq<Move>, m: Move)
    ensures History(first, moves + [m]) == History(first, moves) + Added(m)
  {
    assert (moves + [m])[..|moves|] == moves;
  }

  // The move drops a file with e in it.
  predicate Loses(d: Db, m: Move, e: Entry) {
    m.Compaction? && e in Mass(d.store, Dropped(d.levels, d.store, m.level, m.step))
  }

  ghost predicate NeverLost(dbs: seq<Db>, moves: seq<Move>, e: Entry)
    decreases |moves|
  {
    var n := |moves| - 1;
    |dbs| == |moves| + 1 && (moves != [] ==> NeverLost(dbs[..n + 1], moves[..n], e) && !Loses(dbs[n], moves[n], e))
  }

  // ---------------------------------------------------------------- what a flush does

  lemma FlushBalance(d: Db, name: nat, blocks: Blocks, d': Db)
    requires IsValid(d) && IsFlush(d, name, blocks, d')
    ensures Total(d') == Total(d) + multiset(Flatten(blocks))
  {
    TotalFrame(d.store, d'.store, d.levels);
    MassOne(d'.store, name);
    if d.levels == [] {
      assert [[name]][..0] == [];
    } else {
      TotalMassUpdate(d'.store, d.levels, 0, d.levels[0] + [name]);
      MassAppend(d'.store, d.levels[0], [name]);
      AddBoth(Total(d'), Mass(d'.store, d.levels[0]), Total(d), Mass(d'.store, [name]));
    }
  }

  lemma AddBoth(t': multiset<Entry>, level: multiset<Entry>, t: multiset<Entry>, more: multiset<Entry>)
    requires t' + level == t + (level + more)
    ensures t' == t + more
  {
    assert forall e :: t'[e] == (t' + level)[e] - level[e] == (t + more)[e];
  }

  lemma NewIsOnce(es: seq<Entry>, from: nat, to: nat)
    requires NewEntries(es, from, to)
    ensures UniqueMass(multiset(es)) && forall e <- multiset(es) :: from <= e.id < to
  {
    forall x <- multiset(es), y <- multiset(es) | x.id == y.id
      ensures x == y
    {
      var i :| 0 <= i < |es| && es[i] == x;
      var j :| 0 <= j < |es| && es[j] == y;
    }
    forall x <- multiset(es)
      ensures multiset(es)[x] == 1
    {
      OnlyOnce(es, x);
    }
    forall e <- multiset(es)
      ensures from <= e.id < to
    {
      assert e in es;
    }
  }

  lemma {:induction false} OnlyOnce(es: seq<Entry>, x: Entry)
    requires forall i, j :: 0 <= i < j < |es| ==> es[i].id != es[j].id
    ensures multiset(es)[x] <= 1
  {
    if es != [] {
      var n := |es| - 1;
      OnlyOnce(es[..n], x);
      assert es == es[..n] + [es[n]];
      assert x in es[..n] ==> x != es[n];
    }
  }

  lemma UniqueSum(a: multiset<Entry>, b: multiset<Entry>, id: nat)
    requires UniqueMass(a) && UniqueMass(b) && IdsBelow(a, id) && forall e <- b :: id <= e.id
    ensures UniqueMass(a + b)
  {
    forall x <- a + b
      ensures (a + b)[x] == 1
    {
      assert x in a <==> x !in b;
    }
  }

  lemma FlushKeepsFiles(d: Db, name: nat, blocks: Blocks, d': Db)
    requires IsValid(d) && IsFlush(d, name, blocks, d')
    ensures forall level <- d'.levels :: FilesValid(d'.store, level)
  {
    forall i | 0 <= i < |d'.levels|
      ensures FilesValid(d'.store, d'.levels[i])
    {
      if d.levels != [] {
        assert d.levels[i] in d.levels;
      }
    }
  }

  /** A flush keeps the database valid and adds exactly the entries of its table. */
  lemma FlushIsValid(d: Db, name: nat, blocks: Blocks, d': Db)
    requires IsValid(d) && IsFlush(d, name, blocks, d')
    ensures IsValid(d') && Total(d') == Total(d) + multiset(Flatten(blocks))
    ensures forall e <- Flatten(blocks) :: d.nextId <= e.id
  {
    FlushBalance(d, name, blocks, d');
    FlushKeepsFiles(d, name, blocks, d');
    NewIsOnce(Flatten(blocks), d.nextId, d'.nextId);
    UniqueSum(Total(d), multiset(Flatten(blocks)), d.nextId);
  }

  /** A compaction keeps it valid and adds no entry. */
  lemma CompactionKeeps(d: Db, m: Move, d': Db)
    requires m.Compaction? && IsValid(d) && IsMove(d, m, d')
    ensures IsValid(d') && Total(d') <= Total(d)
  {
    CompactedIsValid(d.levels, d.store, d'.levels, d'.store, m.level, m.count, m.step);
    CompactedIsPart(d.levels, d.store, d'.levels, d'.store, m.level, m.count, m.step);
  }

  // ---------------------------------------------------------------- the newest entry of a key

  // What a run is, from its end.
  lemma LastMove(dbs: seq<Db>, moves: seq<Move>)
    requires IsRun(dbs, moves) && moves != []
    ensures IsRun(dbs[..|moves|], moves[..|moves| - 1])
    ensures IsMove(dbs[|moves| - 1], moves[|moves| - 1], dbs[|moves|])
  {
  }

  lemma NeverLostByLast(dbs: seq<Db>, moves: seq<Move>, e: Entry)
    requires |dbs| == |moves| + 1 && moves != []
    ensures var n := |moves| - 1;
            NeverLost(dbs, moves, e) <==> NeverLost(dbs[..n + 1], moves[..n], e) && !Loses(dbs[n], moves[n], e)
  {
  }

  // In every state of a run: what there is was written, and has taken its id.
  lemma {:induction false} RunKeepsValid(dbs: seq<Db>, moves: seq<Move>)
    requires IsRun(dbs, moves) && IsValid(dbs[0])
    ensures IsValid(dbs[|moves|]) && Total(dbs[|moves|]) <= History(dbs[0], moves)
    ensures IdsBelow(History(dbs[0], moves), dbs[|moves|].nextId)
    decreases |moves|
  {
    if moves != [] {
      var n := |moves| - 1;
      RunKeepsValid(dbs[..n + 1], moves[..n]);
      MoveKeepsValid(dbs[n], moves[n], dbs[n + 1], History(dbs[0], moves[..n]));
    }
  }

  lemma MoveKeepsValid(d: Db, m: Move, d': Db, written: multiset<Entry>)
    requires IsValid(d) && IsMove(d, m, d') && Total(d) <= written && IdsBelow(written, d.nextId)
    ensures IsValid(d') && Total(d') <= written + Added(m) && IdsBelow(written + Added(m), d'.nextId)
  {
    if m.Flush? {
      FlushIsValid(d, m.name, m.blocks, d');
      NewIsOnce(Flatten(m.blocks), d.nextId, d'.nextId);
    } else {
      CompactionKeeps(d, m, d');
    }
  }

  // What is not written yet cannot get lost.
  lemma {:induction false} NotYetLost(dbs: seq<Db>, moves: seq<Move>, e: Entry)
    requires IsRun(dbs, moves) && IsValid(dbs[0]) && e !in History(dbs[0], moves)
    ensures NeverLost(dbs, moves, e)
    decreases |moves|
  {
    if moves != [] {
      var n := |moves| - 1;
      NotYetLost(dbs[..n + 1], moves[..n], e);
      RunKeepsValid(dbs[..n + 1], moves[..n]);
      NotLostNow(dbs[n], moves[n], dbs[n + 1], History(dbs[0], moves[..n]), e);
    }
  }

  lemma NotLostNow(d: Db, m: Move, d': Db, written: multiset<Entry>, e: Entry)
    requires IsMove(d, m, d') && Total(d) <= written && e !in written
    ensures !Loses(d, m, e)
  {
    if Loses(d, m, e) {
      DroppedIsPart(d, m, e);
    }
  }

  lemma DroppedIsPart(d: Db, m: Move, e: Entry)
    requires Loses(d, m, e) && m.level < |d.levels|
    ensures e in Total(d)
  {
    var next := Next(d.levels, m.level);
    var range := Range(Contents(d.store, next), m.step.lo, m.step.hi);
    PicksInMass(d.store, next, Skipped(Contents(d.store, next), m.step.lo, range.0, range.1), e);
    TotalParts(d.store, d.levels, m.level);
  }

  lemma PicksInMass(store: Store, s: seq<nat>, r: seq<nat>, e: Entry)
    requires e in Mass(store, Picks(s, r))
    ensures e in Mass(store, s)
  {
    var f := InSome(store, Picks(s, r), e);
    PicksArePart(s, r);
    InOne(store, s, f, e);
  }

  lemma {:induction false} InSome(store: Store, names: seq<nat>, e: Entry) returns (f: nat)
    requires e in Mass(store, names)
    ensures f in names && e in Content(store, f)
  {
    var n := |names| - 1;
    if e in Content(store, names[n]) {
      f := names[n];
    } else {
      f := InSome(store, names[..n], e);
    }
  }

  lemma InOne(store: Store, names: seq<nat>, f: nat, e: Entry)
    requires f in names && e in Content(store, f)
    ensures e in Mass(store, names)
  {
    var i :| 0 <= i < |names| && names[i] == f;
    assert names == names[..i] + [f] + names[i + 1..];
    MassThree(store, names[..i], [f], names[i + 1..]);
    MassOne(store, f);
  }

  // One more move, for the newest entry of a key.
  lemma NewestStep(d: Db, m: Move, d': Db, written: multiset<Entry>, e: Entry)
    requires IsValid(d) && IsMove(d, m, d') && Total(d) <= written && IdsBelow(written, d.nextId)
    requires IsNewest(e, written + Added(m))
    ensures e in Added(m) ==> e !in written && e in Total(d') && !Loses(d, m, e)
    ensures e in written ==> IsNewest(e, written) && (e in Total(d') <==> e in Total(d) && !Loses(d, m, e))
  {
    if m.Flush? {
      FlushIsValid(d, m.name, m.blocks, d');
    } else {
      CompactionKeeps(d, m, d');
      if e in Total(d) {
        NewestSurvives(d.levels, d.store, d'.levels, d'.store, m.level, m.count, m.step, e);
      }
    }
  }

  /** Over any run of the store: the newest of all entries ever written for a key is still there if and
      only if no compaction has dropped a file with it. */
  lemma {:induction false} RunKeepsNewest(dbs: seq<Db>, moves: seq<Move>, e: Entry)
    requires IsRun(dbs, moves) && IsValid(dbs[0]) && IsNewest(e, History(dbs[0], moves))
    ensures IsNewest(e, Total(dbs[|moves|])) <==> e in Total(dbs[|moves|])
    ensures e in Total(dbs[|moves|]) <==> NeverLost(dbs, moves, e)
    decreases |moves|
  {
    RunKeepsValid(dbs, moves);
    if moves != [] {
      var n := |moves| - 1;
      var written := History(dbs[0], moves[..n]);
      LastMove(dbs, moves);
      NeverLostByLast(dbs, moves, e);
      RunKeepsValid(dbs[..n + 1], moves[..n]);
      NewestStep(dbs[n], moves[n], dbs[n + 1], written, e);
      if e in written {
        RunKeepsNewest(dbs[..n + 1], moves[..n], e);
      } else {
        NotYetLost(dbs[..n + 1], moves[..n], e);
      }
    }
  }

  // ---------------------------------------------------------------- the order of the levels

  /** The files of every level below level 0 follow each other without overlap. */
  ghost predicate LevelsSorted(d: Db) {
    forall l :: 1 <= l < |d.levels| ==> SortedLevel(Contents(d.store, d.levels[l]))
  }

  // The files a compaction takes out of its level.
  function Taken(d: Db, m: Move): seq<nat>
    requires m.Compaction? && m.level < |d.levels|
  {
    var level := d.levels[m.level];
    Picks(level, Removed(Contents(d.store, level), m.level, m.count, m.step.lo, m.step.hi))
  }

  /** What a compaction needs to find in the next level: below level 0, not a gap in the middle; from
      level 0, nothing in the range of the new files but what is merged. */
  ghost predicate MoveFits(d: Db, m: Move) {
    m.Compaction? ==>
      && m.level < |d.levels|
      && if m.level > 0 then !InMiddle(Contents(d.store, Next(d.levels, m.level)), m.step.lo, m.step.hi)
         else m.step.order != [] && exists lo, hi :: FitsUpTo(d, m, lo, hi)
  }

  predicate FitsUpTo(d: Db, m: Move, lo: Entry, hi: Entry)
    requires m.Compaction? && 0 == m.level < |d.levels| && m.step.order != []
  {
    var fs := Contents(d.store, Next(d.levels, 0));
    var range := Range(fs, m.step.lo, m.step.hi);
    IsHull(Contents(d.store, Taken(d, m)), lo, hi) && Fits(fs, FirstKept(m.step.order), hi, range.0, range.1)
  }

  lemma {:induction false} HullExists(fs: seq<File>) returns (lo: Entry, hi: Entry)
    requires fs != [] && forall i :: 0 <= i < |fs| ==> fs[i] != []
    ensures IsHull(fs, lo, hi)
  {
    var n := |fs| - 1;
    if n == 0 {
      lo, hi := First(fs[0]), Last(fs[0]);
      LessEqTotal(lo, lo);
      LessEqTotal(hi, hi);
    } else {
      lo, hi := HullExists(fs[..n]);
      HullStep(fs[..n], fs[n], lo, hi);
      assert fs == fs[..n] + [fs[n]];
      lo := if Less(First(fs[n]), lo) then First(fs[n]) else lo;
      hi := if Less(hi, Last(fs[n])) then Last(fs[n]) else hi;
    }
  }

  // The boundaries of a group agree on where it ends.
  lemma UniqueEnd(fs: seq<File>, lo: Entry, hi: Entry, lo': Entry, hi': Entry)
    requires IsHull(fs, lo, hi) && IsHull(fs, lo', hi')
    ensures hi.key == hi'.key && hi.id == hi'.id
  {
    EndsBelow(fs, lo, hi, lo', hi');
    EndsBelow(fs, lo', hi', lo, hi);
    LessIsStrictOrder(hi, hi', hi);
  }

  lemma EndsBelow(fs: seq<File>, lo: Entry, hi: Entry, lo': Entry, hi': Entry)
    requires IsHull(fs, lo, hi) && IsHull(fs, lo', hi')
    ensures LessEq(hi, hi')
  {
    var f :| f in fs && f != [] && hi == Last(f);
  }

  // Below level 0.
  lemma DeepMoveKeepsOrder(d: Db, m: Move, d': Db)
    requires m.Compaction? && m.level > 0 && IsValid(d) && LevelsSorted(d) && IsMove(d, m, d')
    ensures m.level + 1 < |d'.levels| && SortedLevel(Contents(d'.store, d'.levels[m.level]))
    ensures SortedLevel(Contents(d'.store, d'.levels[m.level + 1])) <==> MoveFits(d, m)
  {
    NextIsSorted(d, m.level);
    CompactionKeepsOrder(d.levels, d.store, d'.levels, d'.store, m.level, m.count, m.step);
  }

  lemma NextIsSorted(d: Db, n: nat)
    requires LevelsSorted(d) && n < |d.levels|
    ensures SortedLevel(Contents(d.store, Next(d.levels, n)))
    ensures n > 0 ==> SortedLevel(Contents(d.store, d.levels[n]))
  {
  }

  // From level 0.
  lemma ZeroMoveKeepsOrder(d: Db, m: Move, d': Db)
    requires m.Compaction? && m.level == 0 && IsValid(d) && LevelsSorted(d) && IsMove(d, m, d')
    ensures |d'.levels| > 1
    ensures SortedLevel(Contents(d'.store, d'.levels[1])) <==> MoveFits(d, m)
  {
    NextIsSorted(d, 0);
    var lo, hi := TakenHull(d, m);
    LevelZeroKeepsOrder(d.levels, d.store, d'.levels, d'.store, m.count, m.step, lo, hi);
    ZeroFits(d, m, lo, hi);
  }

  // Any boundary of the files taken will do.
  lemma ZeroFits(d: Db, m: Move, lo: Entry, hi: Entry)
    requires m.Compaction? && 0 == m.level < |d.levels| && m.step.order != []
    requires IsHull(Contents(d.store, Taken(d, m)), lo, hi)
    ensures var fs := Contents(d.store, Next(d.levels, 0));
            var range := Range(fs, m.step.lo, m.step.hi);
            MoveFits(d, m) <==> Fits(fs, FirstKept(m.step.order), hi, range.0, range.1)
  {
    var fs := Contents(d.store, Next(d.levels, 0));
    var range := Range(fs, m.step.lo, m.step.hi);
    if Fits(fs, FirstKept(m.step.order), hi, range.0, range.1) {
      assert FitsUpTo(d, m, lo, hi);
    }
    forall lo', hi' | FitsUpTo(d, m, lo', hi')
      ensures Fits(fs, FirstKept(m.step.order), hi, range.0, range.1)
    {
      UniqueEnd(Contents(d.store, Taken(d, m)), lo, hi, lo', hi');
      FitsSame(fs, FirstKept(m.step.order), hi', hi, range.0, range.1);
    }
  }

  lemma FitsSame(fs: seq<File>, lo: Entry, hi: Entry, hi': Entry, a: nat, b: nat)
    requires hi.key == hi'.key && hi.id == hi'.id && Fits(fs, lo, hi, a, b)
    ensures Fits(fs, lo, hi', a, b)
  {
  }

  lemma TakenHull(d: Db, m: Move) returns (lo: Entry, hi: Entry)
    requires IsValid(d) && m.Compaction? && m.level < |d.levels| && 0 < m.count <= |d.levels[m.level]|
    ensures IsHull(Contents(d.store, Taken(d, m)), lo, hi)
  {
    var level := d.levels[m.level];
    var r := Removed(Contents(d.store, level), m.level, m.count, m.step.lo, m.step.hi);
    assert level in d.levels;
    PicksValid(d.store, level, r);
    FilesAreFiles(d.store, Taken(d, m));
    RemovedAscends(Contents(d.store, level), m.level, m.count, m.step.lo, m.step.hi);
    assert r[0] == Interval(0, m.count)[0];
    PicksSome(level, r);
    lo, hi := HullExists(Contents(d.store, Taken(d, m)));
  }

  lemma PicksSome<T>(s: seq<T>, r: seq<nat>)
    requires r != [] && forall i :: 0 <= i < |r| ==> r[i] < |s|
    ensures Picks(s, r) != []
  {
  }

  // The levels a move leaves alone.
  lemma OthersStay(d: Db, m: Move, d': Db, l: nat)
    requires IsValid(d) && IsMove(d, m, d') && 1 <= l < |d'.levels|
    requires m.Compaction? ==> l != m.level && l != m.level + 1
    ensures l < |d.levels| && Contents(d'.store, d'.levels[l]) == Contents(d.store, d.levels[l])
  {
    if m.Flush? {
      assert d.levels[l] in d.levels;
      MassFrame(d.store, d'.store, d.levels[l]);
    } else {
      OtherLevels(d.levels, d.store, d'.levels, d'.store, m.level, m.count, m.step, l);
    }
  }

  lemma OthersSorted(d: Db, m: Move, d': Db)
    requires IsValid(d) && LevelsSorted(d) && IsMove(d, m, d')
    ensures forall l :: 1 <= l < |d'.levels| && (m.Compaction? ==> l != m.level && l != m.level + 1)
              ==> SortedLevel(Contents(d'.store, d'.levels[l]))
  {
    forall l | 1 <= l < |d'.levels| && (m.Compaction? ==> l != m.level && l != m.level + 1)
      ensures SortedLevel(Contents(d'.store, d'.levels[l]))
    {
      OthersStay(d, m, d', l);
    }
  }

  lemma AllLevels(d: Db, n: nat)
    requires n + 1 < |d.levels| && (n > 0 ==> SortedLevel(Contents(d.store, d.levels[n])))
    requires forall l :: 1 <= l < |d.levels| && l != n && l != n + 1 ==> SortedLevel(Contents(d.store, d.levels[l]))
    ensures LevelsSorted(d) <==> SortedLevel(Contents(d.store, d.levels[n + 1]))
  {
  }

  lemma FlushKeepsOrder(d: Db, m: Move, d': Db)
    requires m.Flush? && IsValid(d) && LevelsSorted(d) && IsMove(d, m, d')
    ensures LevelsSorted(d')
  {
    OthersSorted(d, m, d');
  }

  lemma DeepLevels(d: Db, m: Move, d': Db)
    requires m.Compaction? && m.level > 0 && IsValid(d) && LevelsSorted(d) && IsMove(d, m, d')
    ensures LevelsSorted(d') <==> MoveFits(d, m)
  {
    OthersSorted(d, m, d');
    DeepMoveKeepsOrder(d, m, d');
    AllLevels(d', m.level);
  }

  lemma ZeroLevels(d: Db, m: Move, d': Db)
    requires m.Compaction? && m.level == 0 && IsValid(d) && LevelsSorted(d) && IsMove(d, m, d')
    ensures LevelsSorted(d') <==> MoveFits(d, m)
  {
    OthersSorted(d, m, d');
    ZeroMoveKeepsOrder(d, m, d');
    AllLevels(d', 0);
  }

  /** A flush, and a compaction that finds its place, keep all levels below level 0 sorted; any other
      compaction leaves the next level out of order. */
  lemma MoveKeepsOrder(d: Db, m: Move, d': Db)
    requires IsValid(d) && LevelsSorted(d) && IsMove(d, m, d')
    ensures LevelsSorted(d') <==> MoveFits(d, m)
  {
    if m.Flush? {
      FlushKeepsOrder(d, m, d');
    } else if m.level > 0 {
      DeepLevels(d, m, d');
    } else {
      ZeroLevels(d, m, d');
    }
  }

  lemma SortedLosesNothing(d: Db, m: Move, d': Db, e: Entry)
    requires IsValid(d) && LevelsSorted(d) && IsMove(d, m, d')
    ensures !Loses(d, m, e)
  {
    if m.Compaction? {
      NextIsSorted(d, m.level);
      var group := d.levels[m.level][..m.count];
      assert d.levels[m.level] in d.levels;
      FilesAreFiles(d.store, group);
      HullIsOrdered(Contents(d.store, group), m.step.lo, m.step.hi);
      SortedDropsNothing(d.levels, d.store, m.level, m.step);
    }
  }

  ghost predicate AllFit(dbs: seq<Db>, moves: seq<Move>)
    requires |dbs| == |moves| + 1
  {
    forall k :: 0 <= k < |moves| ==> MoveFits(dbs[k], moves[k])
  }

  ghost predicate AllSorted(dbs: seq<Db>) {
    forall k :: 0 <= k < |dbs| ==> LevelsSorted(dbs[k])
  }

  lemma FitByLast(dbs: seq<Db>, moves: seq<Move>)
    requires |dbs| == |moves| + 1 && moves != []
    ensures var n := |moves| - 1;
            AllFit(dbs, moves) <==> AllFit(dbs[..n + 1], moves[..n]) && MoveFits(dbs[n], moves[n])
  {
    var n := |moves| - 1;
    assert forall k :: 0 <= k <= n ==> dbs[..n + 1][k] == dbs[k];
    assert forall k :: 0 <= k < n ==> moves[..n][k] == moves[k];
  }

  lemma SortedByLast(dbs: seq<Db>, n: nat)
    requires |dbs| == n + 2
    ensures AllSorted(dbs) <==> AllSorted(dbs[..n + 1]) && LevelsSorted(dbs[n + 1])
    ensures AllSorted(dbs[..n + 1]) ==> LevelsSorted(dbs[n])
  {
    assert forall k :: 0 <= k <= n ==> dbs[..n + 1][k] == dbs[k];
  }

  /** Over any run of the store from sorted levels: the levels below level 0 are sorted in every state
      if and only if every compaction finds its place. */
  lemma {:induction false} RunKeepsOrder(dbs: seq<Db>, moves: seq<Move>)
    requires IsRun(dbs, moves) && IsValid(dbs[0]) && LevelsSorted(dbs[0])
    ensures AllFit(dbs, moves) <==> AllSorted(dbs)
    decreases |moves|
  {
    if moves != [] {
      var n := |moves| - 1;
      LastMove(dbs, moves);
      FitByLast(dbs, moves);
      SortedByLast(dbs, n);
      RunKeepsOrder(dbs[..n + 1], moves[..n]);
      RunKeepsValid(dbs[..n + 1], moves[..n]);
      if LevelsSorted(dbs[n]) {
        MoveKeepsOrder(dbs[n], moves[n], dbs[n + 1]);
      }
    }
  }

  lemma {:induction false} SortedNeverLoses(dbs: seq<Db>, moves: seq<Move>, e: Entry)
    requires IsRun(dbs, moves) && IsValid(dbs[0]) && AllSorted(dbs)
    ensures NeverLost(dbs, moves, e)
    decreases |moves|
  {
    if moves != [] {
      var n := |moves| - 1;
      SortedNeverLoses(dbs[..n + 1], moves[..n], e);
      RunKeepsValid(dbs[..n + 1], moves[..n]);
      SortedLosesNothing(dbs[n], moves[n], dbs[n + 1], e);
    }
  }

  /** Then no key ever loses its newest entry. */
  lemma FittingRunLosesNothing(dbs: seq<Db>, moves: seq<Move>, e: Entry)
    requires IsRun(dbs, moves) && IsValid(dbs[0]) && LevelsSorted(dbs[0]) && AllFit(dbs, moves)
    requires IsNewest(e, History(dbs[0], moves))
    ensures IsNewest(e, Total(dbs[|moves|]))
  {
    RunKeepsOrder(dbs, moves);
    SortedNeverLoses(dbs, moves, e);
    RunKeepsNewest(dbs, moves, e);
  }
}
