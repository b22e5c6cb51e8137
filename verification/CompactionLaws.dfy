/** What every compaction step keeps. */
module CompactionLaws {
  import opened Lists
  import opened InternalEntry
  import opened Order
  import opened Sorted
  import opened MergeOutput
  import opened Merge
  import opened Tools
  import opened Levels
  import opened Compaction

  lemma SubUnique(m: multiset<Entry>, m': multiset<Entry>)
    requires m <= m' && UniqueMass(m')
    ensures UniqueMass(m)
  {
  }

  lemma TotalParts(store: Store, levels: seq<seq<nat>>, n: nat)
    requires n < |levels|
    ensures Mass(store, levels[n]) + Mass(store, Next(levels, n)) <= TotalMass(store, levels)
    decreases |levels|
  {
    var m := |levels| - 1;
    if n + 1 < m {
      TotalParts(store, levels[..m], n);
      assert Next(levels[..m], n) == Next(levels, n);
    } else if n < m {
      LevelInTotal(store, levels[..m], n);
    }
  }

  lemma PicksValid(store: Store, s: seq<nat>, r: seq<nat>)
    requires FilesValid(store, s)
    ensures FilesValid(store, Picks(s, r))
  {
    PicksArePart(s, r);
  }

  lemma PicksMass(store: Store, s: seq<nat>, r: seq<nat>)
    requires Ascending(r) && forall i :: 0 <= i < |r| ==> r[i] < |s|
    ensures Mass(store, s) == Mass(store, Kept(s, r)) + Mass(store, Picks(s, r))
  {
    KeptAndPicked(store, s, r, |s|);
    assert s[..|s|] == s;
  }

  /** What a compaction merges is part of the database, so all in it is unique. */
  lemma MergedIsPart(levels: seq<seq<nat>>, store: Store, n: nat, count: nat, s: Step)
    requires ValidDb(levels, store) && n < |levels| && count <= |levels[n]| && Selects(levels, store, n, count, s)
    ensures Mass(store, s.merged) <= TotalMass(store, levels)
    ensures UniqueMass(Mass(store, s.merged)) && FilesValid(store, s.merged)
  {
    var fs, next := Contents(store, levels[n]), Contents(store, Next(levels, n));
    var r, o := Removed(fs, n, count, s.lo, s.hi), Overlapping(next, s.lo, s.hi);
    TotalParts(store, levels, n);
    RemovedAscends(fs, n, count, s.lo, s.hi);
    OverlappingAscends(next, s.lo, s.hi);
    PicksMass(store, levels[n], r);
    PicksMass(store, Next(levels, n), o);
    MassAppend(store, Picks(levels[n], r), Picks(Next(levels, n), o));
    SubUnique(Mass(store, s.merged), TotalMass(store, levels));
    assert levels[n] in levels && (Next(levels, n) != [] ==> Next(levels, n) in levels);
    PicksValid(store, levels[n], r);
    PicksValid(store, Next(levels, n), o);
  }

  // ---------------------------------------------------------------- the new files

  lemma {:induction false} StrictIsPart(s: seq<Entry>, m: multiset<Entry>)
    requires StrictlySorted(s) && forall x <- s :: x in m
    ensures multiset(s) <= m
  {
    forall x <- multiset(s)
      ensures multiset(s)[x] <= m[x]
    {
      AtMostOnce(s, x);
      assert x in s;
    }
  }

  lemma {:induction false} AtMostOnce(s: seq<Entry>, x: Entry)
    requires StrictlySorted(s)
    ensures multiset(s)[x] <= 1
  {
    if s != [] {
      var n := |s| - 1;
      AtMostOnce(s[..n], x);
      assert s == s[..n] + [s[n]];
      if s[n] == x {
        forall i | 0 <= i < n
          ensures s[i] != x
        {
          LessIsStrictOrder(s[i], s[n], s[n]);
        }
        assert x !in s[..n];
      }
    }
  }

  /** The new files of a compaction: a merge of what was merged, a part of it, and a sorted level. */
  lemma NewFiles(levels: seq<seq<nat>>, store: Store, levels': seq<seq<nat>>, store': Store, n: nat, count: nat,
                 s: Step)
    requires ValidDb(levels, store) && n < |levels| && count <= |levels[n]|
    requires Compacted(levels, store, levels', store', n, count, s)
    ensures MergeOf(s.order, Contents(store', s.newNames))
    ensures Mass(store', s.newNames) <= Mass(store, s.merged)
    ensures SortedLevel(Contents(store', s.newNames))
  {
    MergedIsPart(levels, store, n, count, s);
    UniqueEntries(s.order);
    UniqueInputIsMerged(s.order, s.order);
    var out := Contents(store', s.newNames);
    MassIsFlat(store', s.newNames);
    assert forall x <- s.order :: x in multiset(s.order);
    StrictIsPart(Flatten(out), Mass(store, s.merged));
  }

  // ---------------------------------------------------------------- conservation

  // The part of a list that is replaced holds what is picked between its bounds.
  lemma {:induction false} KeptGrows(store: Store, s: seq<nat>, r: seq<nat>, a: nat, b: nat)
    requires a <= b <= |s|
    ensures Mass(store, Kept(s[..a], r)) <= Mass(store, Kept(s[..b], r))
  {
    if a < b {
      KeptGrows(store, s, r, a, b - 1);
      KeptOneMore(store, s, r, b);
      PartOfPart(Mass(store, Kept(s[..a], r)), Mass(store, Kept(s[..b - 1], r)), Mass(store, Kept(s[..b], r)));
    }
  }

  lemma KeptOneMore(store: Store, s: seq<nat>, r: seq<nat>, b: nat)
    requires 0 < b <= |s|
    ensures Mass(store, Kept(s[..b - 1], r)) <= Mass(store, Kept(s[..b], r))
  {
    KeptMore(s, r, b);
    if b - 1 !in r {
      MassAppend(store, Kept(s[..b - 1], r), [s[b - 1]]);
    }
  }

  lemma PartOfPart(a: multiset<Entry>, b: multiset<Entry>, c: multiset<Entry>)
    requires a <= b && b <= c
    ensures a <= c
  {
  }

  lemma KeptPrefix(s: seq<nat>, r: seq<nat>, a: nat)
    requires a <= |s| && forall i :: 0 <= i < |r| ==> a <= r[i]
    ensures Kept(s[..a], r) == s[..a]
  {
    KeptStretch(s, r, 0, a);
  }

  lemma PickedBetween(store: Store, s: seq<nat>, r: seq<nat>, a: nat, b: nat)
    requires Ascending(r) && a <= b <= |s| && forall i :: 0 <= i < |r| ==> a <= r[i] < b
    ensures Mass(store, Picks(s, r)) <= Mass(store, s[a..b])
  {
    KeptAndPicked(store, s, r, b);
    KeptPrefix(s, r, a);
    KeptGrows(store, s, r, a, b);
    SplitPrefix(s, a, b);
    MassAppend(store, s[..a], s[a..b]);
    Cancel(Mass(store, Kept(s[..b], r)), Mass(store, Picks(s, r)), Mass(store, s[..a]), Mass(store, s[a..b]));
  }

  lemma SplitPrefix(s: seq<nat>, a: nat, b: nat)
    requires a <= b <= |s|
    ensures s[..b] == s[..a] + s[a..b]
  {
  }

  lemma Cancel(k: multiset<Entry>, p: multiset<Entry>, a: multiset<Entry>, m: multiset<Entry>)
    requires k + p == a + m && a <= k
    ensures p <= m
  {
    forall x
      ensures p[x] <= m[x]
    {
      assert (k + p)[x] == (a + m)[x];
    }
  }

  lemma MassThree(store: Store, a: seq<nat>, b: seq<nat>, c: seq<nat>)
    ensures Mass(store, a + b + c) == Mass(store, a) + Mass(store, b) + Mass(store, c)
  {
    MassAppend(store, a + b, c);
    MassAppend(store, a, b);
  }

  // The balance of a change of the manifest.
  lemma Balance(store: Store, levels: seq<seq<nat>>, n: nat, r: seq<nat>, range: (nat, nat), newNames: seq<nat>)
    requires n < |levels| && range.0 <= range.1 <= |Next(levels, n)|
    requires Ascending(r) && forall i :: 0 <= i < |r| ==> r[i] < |levels[n]|
    ensures TotalMass(store, NewLevels(levels, n, r, range, newNames))
            + (Mass(store, Picks(levels[n], r)) + Mass(store, Next(levels, n)[range.0..range.1]))
            == TotalMass(store, levels) + Mass(store, newNames)
  {
    var next := Next(levels, n);
    var grown := if n + 1 < |levels| then levels else levels + [[]];
    Grown(store, levels);
    var kept, level := Kept(levels[n], r), next[..range.0] + newNames + next[range.1..];
    TotalMassUpdate(store, grown, n, kept);
    TotalMassUpdate(store, grown[n := kept], n + 1, level);
    PicksMass(store, levels[n], r);
    MassThree(store, next[..range.0], newNames, next[range.1..]);
    NextInThree(store, next, range.0, range.1);
    Balanced(TotalMass(store, levels), TotalMass(store, grown[n := kept]),
             TotalMass(store, grown[n := kept][n + 1 := level]),
             Mass(store, kept), Mass(store, Picks(levels[n], r)),
             Mass(store, next[..range.0]), Mass(store, next[range.0..range.1]), Mass(store, next[range.1..]),
             Mass(store, newNames));
  }

  lemma NextInThree(store: Store, next: seq<nat>, a: nat, b: nat)
    requires a <= b <= |next|
    ensures Mass(store, next) == Mass(store, next[..a]) + Mass(store, next[a..b]) + Mass(store, next[b..])
  {
    ThreeSlices(next, a, b);
    MassThree(store, next[..a], next[a..b], next[b..]);
  }

  lemma Grown(store: Store, levels: seq<seq<nat>>)
    ensures TotalMass(store, levels + [[]]) == TotalMass(store, levels)
  {
    assert (levels + [[]])[..|levels|] == levels;
  }

  lemma Balanced(t: multiset<Entry>, t1: multiset<Entry>, t2: multiset<Entry>, kept: multiset<Entry>,
                 picked: multiset<Entry>,
                 a: multiset<Entry>, mid: multiset<Entry>, c: multiset<Entry>, added: multiset<Entry>)
    requires t1 + (kept + picked) == t + kept
    requires t2 + (a + mid + c) == t1 + (a + added + c)
    ensures t2 + (picked + mid) == t + added
  {
    forall x
      ensures (t2 + (picked + mid))[x] == (t + added)[x]
    {
      assert (t1 + (kept + picked))[x] == (t + kept)[x];
      assert (t2 + (a + mid + c))[x] == (t1 + (a + added + c))[x];
    }
  }

  // ---------------------------------------------------------------- the database stays valid

  lemma PartsOnNewDisk(levels: seq<seq<nat>>, store: Store, store': Store, n: nat, r: seq<nat>, a: nat, b: nat)
    requires (forall level <- levels :: FilesValid(store, level)) && Extends(store, store')
    requires n < |levels| && a <= b <= |Next(levels, n)|
    ensures TotalMass(store', levels) == TotalMass(store, levels)
    ensures Mass(store', Picks(levels[n], r)) == Mass(store, Picks(levels[n], r))
    ensures Mass(store', Next(levels, n)[a..b]) == Mass(store, Next(levels, n)[a..b])
  {
    TotalFrame(store, store', levels);
    assert levels[n] in levels && (Next(levels, n) != [] ==> Next(levels, n) in levels);
    PicksValid(store, levels[n], r);
    MassFrame(store, store', Picks(levels[n], r));
    MassFrame(store, store', Next(levels, n)[a..b]);
  }

  lemma BalanceOnNewDisk(levels: seq<seq<nat>>, store: Store, store': Store, n: nat, r: seq<nat>, range: (nat, nat),
                         newNames: seq<nat>)
    requires (forall level <- levels :: FilesValid(store, level)) && Extends(store, store')
    requires n < |levels| && range.0 <= range.1 <= |Next(levels, n)|
    requires Ascending(r) && forall i :: 0 <= i < |r| ==> r[i] < |levels[n]|
    ensures TotalMass(store', NewLevels(levels, n, r, range, newNames))
            + (Mass(store, Picks(levels[n], r)) + Mass(store, Next(levels, n)[range.0..range.1]))
            == TotalMass(store, levels) + Mass(store', newNames)
  {
    PartsOnNewDisk(levels, store, store', n, r, range.0, range.1);
    Balance(store', levels, n, r, range, newNames);
  }

  // The entries of a compacted database.
  lemma CompactedBalance(levels: seq<seq<nat>>, store: Store, levels': seq<seq<nat>>, store': Store, n: nat,
                         count: nat, s: Step)
    requires ValidDb(levels, store) && n < |levels| && count <= |levels[n]|
    requires Compacted(levels, store, levels', store', n, count, s)
    ensures var next := Contents(store, Next(levels, n));
            var r, range := Removed(Contents(store, levels[n]), n, count, s.lo, s.hi), Range(next, s.lo, s.hi);
            TotalMass(store', levels')
            + (Mass(store, Picks(levels[n], r)) + Mass(store, Next(levels, n)[range.0..range.1]))
            == TotalMass(store, levels) + Mass(store', s.newNames)
  {
    var next := Contents(store, Next(levels, n));
    RemovedAscends(Contents(store, levels[n]), n, count, s.lo, s.hi);
    BalanceOnNewDisk(levels, store, store', n, Removed(Contents(store, levels[n]), n, count, s.lo, s.hi),
                     Range(next, s.lo, s.hi), s.newNames);
  }

  // What the range of the next level loses is at least what is merged of it.
  lemma RangeCovers(store: Store, next: seq<nat>, lo: Entry, hi: Entry)
    ensures var fs := Contents(store, next);
            var range := Range(fs, lo, hi);
            Mass(store, Picks(next, Overlapping(fs, lo, hi))) <= Mass(store, next[range.0..range.1])
  {
    var fs := Contents(store, next);
    var o, range := Overlapping(fs, lo, hi), Range(fs, lo, hi);
    OverlappingAscends(fs, lo, hi);
    forall i | 0 <= i < |o|
      ensures range.0 <= o[i] < range.1
    {
      assert i > 0 ==> o[0] < o[i];
      assert i < |o| - 1 ==> o[i] < o[|o| - 1];
    }
    PickedBetween(store, next, o, range.0, range.1);
  }

  /** A compaction adds no entry to the database, whatever the order of its files. */
  lemma CompactedIsPart(levels: seq<seq<nat>>, store: Store, levels': seq<seq<nat>>, store': Store, n: nat,
                        count: nat, s: Step)
    requires ValidDb(levels, store) && n < |levels| && count <= |levels[n]|
    requires Compacted(levels, store, levels', store', n, count, s)
    ensures TotalMass(store', levels') <= TotalMass(store, levels)
  {
    var next := Contents(store, Next(levels, n));
    var r, range := Removed(Contents(store, levels[n]), n, count, s.lo, s.hi), Range(next, s.lo, s.hi);
    CompactedBalance(levels, store, levels', store', n, count, s);
    RangeCovers(store, Next(levels, n), s.lo, s.hi);
    NewFiles(levels, store, levels', store', n, count, s);
    var picked, o := Picks(levels[n], r), Picks(Next(levels, n), Overlapping(next, s.lo, s.hi));
    MassAppend(store, picked, o);
    Lighter(TotalMass(store', levels'), TotalMass(store, levels), Mass(store, picked),
            Mass(store, o), Mass(store, Next(levels, n)[range.0..range.1]), Mass(store', s.newNames));
  }

  lemma Lighter(t': multiset<Entry>, t: multiset<Entry>, picked: multiset<Entry>, o: multiset<Entry>,
                mid: multiset<Entry>, added: multiset<Entry>)
    requires t' + (picked + mid) == t + added && added <= picked + o && o <= mid
    ensures t' <= t
  {
    forall x
      ensures t'[x] <= t[x]
    {
      assert (t' + (picked + mid))[x] == (t + added)[x];
      assert added[x] <= (picked + o)[x];
    }
  }

  lemma {:induction false} KeptIsPart<T>(s: seq<T>, r: seq<nat>)
    ensures forall x <- Kept(s, r) :: x in s
  {
    if s != [] {
      KeptIsPart(s[..|s| - 1], r);
    }
  }

  lemma ValidFrame(store: Store, store': Store, names: seq<nat>)
    requires FilesValid(store, names) && Extends(store, store')
    ensures FilesValid(store', names)
  {
  }

  lemma NewLevelsValid(levels: seq<seq<nat>>, store': Store, n: nat, r: seq<nat>, range: (nat, nat), newNames: seq<nat>)
    requires (forall level <- levels :: FilesValid(store', level)) && FilesValid(store', newNames)
    requires n < |levels| && range.0 <= range.1 <= |Next(levels, n)|
    ensures forall level <- NewLevels(levels, n, r, range, newNames) :: FilesValid(store', level)
  {
    var levels' := NewLevels(levels, n, r, range, newNames);
    KeptIsPart(levels[n], r);
    assert levels[n] in levels && (Next(levels, n) != [] ==> Next(levels, n) in levels);
    forall i | 0 <= i < |levels'|
      ensures FilesValid(store', levels'[i])
    {
      if i != n && i != n + 1 {
        assert levels'[i] == levels[i];
      }
    }
  }

  /** A compaction keeps the database valid. */
  lemma CompactedIsValid(levels: seq<seq<nat>>, store: Store, levels': seq<seq<nat>>, store': Store, n: nat,
                         count: nat, s: Step)
    requires ValidDb(levels, store) && n < |levels| && count <= |levels[n]|
    requires Compacted(levels, store, levels', store', n, count, s)
    ensures ValidDb(levels', store')
  {
    CompactedIsPart(levels, store, levels', store', n, count, s);
    SubUnique(TotalMass(store', levels'), TotalMass(store, levels));
    forall level <- levels
      ensures FilesValid(store', level)
    {
      ValidFrame(store, store', level);
    }
    var next := Contents(store, Next(levels, n));
    NewLevelsValid(levels, store', n, Removed(Contents(store, levels[n]), n, count, s.lo, s.hi),
                   Range(next, s.lo, s.hi), s.newNames);
  }

  // ---------------------------------------------------------------- nothing new is lost

  predicate IsNewest(e: Entry, m: multiset<Entry>) {
    e in m && forall x <- m :: x.key == e.key ==> x.id <= e.id
  }

  /** The files of the next level that are taken out of the manifest are exactly those merged. */
  predicate Contiguous(fs: seq<File>, lo: Entry, hi: Entry) {
    var range := Range(fs, lo, hi);
    Overlapping(fs, lo, hi) == Interval(range.0, range.1)
  }

  lemma {:induction false} PicksInterval<T>(s: seq<T>, a: nat, b: nat)
    requires a <= b <= |s|
    ensures Picks(s, Interval(a, b)) == s[a..b]
  {
    if a < b {
      PicksInterval(s, a, b - 1);
      assert Interval(a, b)[..b - a - 1] == Interval(a, b - 1);
    }
  }

  /** The files that leave the manifest without having been merged. */
  function Dropped(levels: seq<seq<nat>>, store: Store, n: nat, s: Step): seq<nat> {
    var fs := Contents(store, Next(levels, n));
    var range := Range(fs, s.lo, s.hi);
    Picks(Next(levels, n), Skipped(fs, s.lo, range.0, range.1))
  }

  lemma {:induction false} SkippedAscends(fs: seq<File>, lo: Entry, a: nat, b: nat)
    requires a <= b <= |fs|
    ensures Ascending(Skipped(fs, lo, a, b)) && EndsBefore(Skipped(fs, lo, a, b), b)
  {
    if a < b {
      SkippedAscends(fs, lo, a, b - 1);
      if Below(fs[b - 1], lo) {
        OneMoreAscends(Skipped(fs, lo, a, b - 1), b - 1);
      }
    }
  }

  lemma OneMoreAscends(r: seq<nat>, k: nat)
    requires Ascending(r) && EndsBefore(r, k)
    ensures Ascending(r + [k])
  {
    forall i | 0 <= i < |r|
      ensures r[i] < k
    {
      assert i < |r| - 1 ==> r[i] < r[|r| - 1];
    }
  }

  lemma PickMore<T>(s: seq<T>, r: seq<nat>, k: nat)
    requires k < |s|
    ensures Picks(s, r + [k]) == Picks(s, r) + [s[k]]
  {
    assert (r + [k])[..|r|] == r;
  }

  lemma KeptMore<T>(s: seq<T>, r: seq<nat>, b: nat)
    requires 0 < b <= |s|
    ensures Kept(s[..b], r) == if b - 1 in r then Kept(s[..b - 1], r) else Kept(s[..b - 1], r) + [s[b - 1]]
  {
    assert s[..b][..b - 1] == s[..b - 1];
  }

  lemma SkipOne<T>(s: seq<T>, r: seq<nat>, b: nat)
    requires 0 < b <= |s|
    ensures Kept(s[..b], r + [b - 1]) == Kept(s[..b - 1], r)
  {
    KeptMore(s, r + [b - 1], b);
    KeptIgnores(s, r + [b - 1], b - 1);
  }

  lemma ReachOne<T>(s: seq<T>, skipped: seq<nat>, before: seq<T>, reached: seq<nat>, b: nat)
    requires 0 < b <= |s| && b - 1 !in skipped && Kept(s[..b - 1], skipped) == before + Picks(s, reached)
    ensures Kept(s[..b], skipped) == before + Picks(s, reached + [b - 1])
  {
    KeptMore(s, skipped, b);
    PickMore(s, reached, b - 1);
  }

  lemma NoneSkipped<T>(s: seq<T>, b: nat)
    requires b <= |s|
    ensures Kept(s[..b], []) == s[..b] + Picks(s, [])
  {
    KeptAll(s[..b]);
  }

  // Without what was skipped, the start of a level is what comes before the range and what was reached in it.
  lemma {:induction false} SkippedAndReached<T>(next: seq<T>, fs: seq<File>, lo: Entry, a: nat, b: nat)
    requires a <= b <= |next| == |fs| && Reached(fs, lo, a) == []
    ensures Kept(next[..b], Skipped(fs, lo, a, b)) == next[..a] + Picks(next, Reached(fs, lo, b))
    decreases b
  {
    if a == b {
      NoneSkipped(next, a);
    } else {
      SkippedAndReached(next, fs, lo, a, b - 1);
      if Below(fs[b - 1], lo) {
        SkipOne(next, Skipped(fs, lo, a, b - 1), b);
      } else {
        SkippedMember(fs, lo, a, b - 1, b - 1);
        ReachOne(next, Skipped(fs, lo, a, b - 1), next[..a], Reached(fs, lo, b - 1), b);
      }
    }
  }

  lemma CancelFirst(x: multiset<Entry>, y: multiset<Entry>, p: multiset<Entry>, q: multiset<Entry>)
    requires x + y == (x + p) + q
    ensures y == q + p
  {
    assert forall e :: y[e] == (x + y)[e] - x[e] == (q + p)[e];
  }

  lemma RangeSplits(store: Store, next: seq<nat>, fs: seq<File>, lo: Entry, a: nat, b: nat)
    requires a <= b <= |next| == |fs| && Reached(fs, lo, a) == []
    ensures Mass(store, next[a..b])
            == Mass(store, Picks(next, Skipped(fs, lo, a, b))) + Mass(store, Picks(next, Reached(fs, lo, b)))
  {
    var skipped, reached := Picks(next, Skipped(fs, lo, a, b)), Picks(next, Reached(fs, lo, b));
    SkippedAscends(fs, lo, a, b);
    KeptAndPicked(store, next, Skipped(fs, lo, a, b), b);
    SkippedAndReached(next, fs, lo, a, b);
    SplitPrefix(next, a, b);
    MassAppend(store, next[..a], next[a..b]);
    MassAppend(store, next[..a], reached);
    CancelFirst(Mass(store, next[..a]), Mass(store, next[a..b]), Mass(store, reached), Mass(store, skipped));
  }

  // What leaves the next level is what is merged of it and what is dropped.
  lemma RangeIsMergedOrDropped(levels: seq<seq<nat>>, store: Store, n: nat, s: Step)
    ensures var next := Next(levels, n);
            var fs := Contents(store, next);
            var range := Range(fs, s.lo, s.hi);
            Mass(store, next[range.0..range.1])
            == Mass(store, Dropped(levels, store, n, s)) + Mass(store, Picks(next, Overlapping(fs, s.lo, s.hi)))
  {
    var next := Next(levels, n);
    var fs := Contents(store, next);
    var range := Range(fs, s.lo, s.hi);
    RangeHoldsSelected(fs, s.lo, s.hi);
    if Overlapping(fs, s.lo, s.hi) != [] {
      RangeSplits(store, next, fs, s.lo, range.0, range.1);
    }
  }

  // The files of the source level, and of the next level, that a compaction merges.
  function FromLevel(levels: seq<seq<nat>>, store: Store, n: nat, count: nat, s: Step): seq<nat>
    requires n < |levels|
  {
    Picks(levels[n], Removed(Contents(store, levels[n]), n, count, s.lo, s.hi))
  }

  function FromNext(levels: seq<seq<nat>>, store: Store, n: nat, s: Step): seq<nat> {
    Picks(Next(levels, n), Overlapping(Contents(store, Next(levels, n)), s.lo, s.hi))
  }

  // The balance of a compaction in these terms.
  lemma MergedAndDropped(levels: seq<seq<nat>>, store: Store, levels': seq<seq<nat>>, store': Store, n: nat,
                         count: nat, s: Step)
    requires ValidDb(levels, store) && n < |levels| && count <= |levels[n]|
    requires Compacted(levels, store, levels', store', n, count, s)
    ensures var picked := Mass(store, FromLevel(levels, store, n, count, s));
      var o := Mass(store, FromNext(levels, store, n, s));
            var dropped, added := Mass(store, Dropped(levels, store, n, s)), Mass(store', s.newNames);
            && TotalMass(store', levels') + (picked + (dropped + o)) == TotalMass(store, levels) + added
            && picked + (dropped + o) <= TotalMass(store, levels)
            && Mass(store, s.merged) == picked + o
  {
    var range := Range(Contents(store, Next(levels, n)), s.lo, s.hi);
    var r := Removed(Contents(store, levels[n]), n, count, s.lo, s.hi);
    CompactedBalance(levels, store, levels', store', n, count, s);
    RangeIsMergedOrDropped(levels, store, n, s);
    RemovedAscends(Contents(store, levels[n]), n, count, s.lo, s.hi);
    LeavingIsPart(levels, store, n, r, range.0, range.1);
    MassAppend(store, FromLevel(levels, store, n, count, s), FromNext(levels, store, n, s));
  }

  /** The newest entry of a key survives a compaction if and only if it is not in a dropped file. */
  lemma NewestSurvives(levels: seq<seq<nat>>, store: Store, levels': seq<seq<nat>>, store': Store, n: nat,
                       count: nat, s: Step, e: Entry)
    requires ValidDb(levels, store) && n < |levels| && count <= |levels[n]|
    requires Compacted(levels, store, levels', store', n, count, s)
    requires IsNewest(e, TotalMass(store, levels))
    ensures IsNewest(e, TotalMass(store', levels')) <==> e in TotalMass(store', levels')
    ensures e in TotalMass(store', levels') <==> e !in Mass(store, Dropped(levels, store, n, s))
  {
    MergedAndDropped(levels, store, levels', store', n, count, s);
    CompactedIsPart(levels, store, levels', store', n, count, s);
    NewFiles(levels, store, levels', store', n, count, s);
    if e in Mass(store, s.merged) {
      MergedNewestIsNew(levels, store, levels', store', n, count, s, e);
    }
    Remains(TotalMass(store', levels'), TotalMass(store, levels), Mass(store, FromLevel(levels, store, n, count, s)),
            Mass(store, FromNext(levels, store, n, s)), Mass(store, Dropped(levels, store, n, s)),
            Mass(store', s.newNames), e);
  }

  // What leaves the manifest is part of the database.
  lemma LeavingIsPart(levels: seq<seq<nat>>, store: Store, n: nat, r: seq<nat>, a: nat, b: nat)
    requires n < |levels| && a <= b <= |Next(levels, n)|
    requires Ascending(r) && forall i :: 0 <= i < |r| ==> r[i] < |levels[n]|
    ensures Mass(store, Picks(levels[n], r)) + Mass(store, Next(levels, n)[a..b]) <= TotalMass(store, levels)
  {
    TotalParts(store, levels, n);
    PicksMass(store, levels[n], r);
    NextInThree(store, Next(levels, n), a, b);
  }

  lemma MergedNewestIsNew(levels: seq<seq<nat>>, store: Store, levels': seq<seq<nat>>, store': Store, n: nat,
                          count: nat, s: Step, e: Entry)
    requires ValidDb(levels, store) && n < |levels| && count <= |levels[n]|
    requires Compacted(levels, store, levels', store', n, count, s)
    requires IsNewest(e, TotalMass(store, levels)) && e in Mass(store, s.merged)
    ensures e in Mass(store', s.newNames)
  {
    MergedIsPart(levels, store, n, count, s);
    NewFiles(levels, store, levels', store', n, count, s);
    assert e in s.order && forall x <- s.order :: x in multiset(s.order);
    NewestIsKept(s.order, Contents(store', s.newNames), e);
    MassIsFlat(store', s.newNames);
  }

  lemma Remains(t': multiset<Entry>, t: multiset<Entry>, picked: multiset<Entry>, o: multiset<Entry>,
                dropped: multiset<Entry>, added: multiset<Entry>, e: Entry)
    requires t' + (picked + (dropped + o)) == t + added && picked + (dropped + o) <= t && UniqueMass(t) && e in t
    requires added <= picked + o && (e in picked + o ==> e in added)
    ensures e in t' <==> e !in dropped
  {
    assert (t' + (picked + (dropped + o)))[e] == (t + added)[e];
    assert (picked + (dropped + o))[e] <= t[e] == 1;
    assert added[e] <= (picked + o)[e];
  }

  /** Below a sorted level nothing is ever dropped. */
  lemma SortedDropsNothing(levels: seq<seq<nat>>, store: Store, n: nat, s: Step)
    requires SortedLevel(Contents(store, Next(levels, n))) && LessEq(s.lo, s.hi)
    ensures Dropped(levels, store, n, s) == []
  {
    var fs := Contents(store, Next(levels, n));
    var range := Range(fs, s.lo, s.hi);
    RangeIsCut(fs, s.lo, s.hi);
    NothingSkipped(fs, s.lo, range.0, range.1);
  }

  lemma {:induction false} NothingSkipped(fs: seq<File>, lo: Entry, a: nat, b: nat)
    requires a <= b <= |fs| && forall i :: a <= i < b ==> !Below(fs[i], lo)
    ensures Skipped(fs, lo, a, b) == []
  {
    if a < b {
      NothingSkipped(fs, lo, a, b - 1);
    }
  }

  // ---------------------------------------------------------------- order

  lemma {:induction false} KeptInterval<T>(s: seq<T>, count: nat, n: nat)
    requires count <= n <= |s|
    ensures Kept(s[..n], Interval(0, count)) == s[count..n]
  {
    if n > count {
      KeptInterval(s, count, n - 1);
      assert s[..n][..n - 1] == s[..n - 1];
      assert s[count..n] == s[count..n - 1] + [s[n - 1]];
    } else if n > 0 {
      KeptNone(s, count, n);
    }
  }

  lemma {:induction false} KeptNone<T>(s: seq<T>, count: nat, n: nat)
    requires n <= count && n <= |s|
    ensures Kept(s[..n], Interval(0, count)) == []
  {
    if n > 0 {
      KeptNone(s, count, n - 1);
      assert s[..n][..n - 1] == s[..n - 1];
      assert Interval(0, count)[n - 1] == n - 1;
    }
  }

  // In a sorted level the scan selects an interval, as the manifest update needs.
  lemma SortedIsContiguous(fs: seq<File>, lo: Entry, hi: Entry)
    requires SortedLevel(fs) && LessEq(lo, hi)
    ensures Contiguous(fs, lo, hi)
  {
    RangeIsCut(fs, lo, hi);
  }

  lemma NewLevelsAt(levels: seq<seq<nat>>, n: nat, r: seq<nat>, range: (nat, nat), newNames: seq<nat>)
    requires n < |levels| && range.0 <= range.1 <= |Next(levels, n)|
    ensures var levels', next := NewLevels(levels, n, r, range, newNames), Next(levels, n);
            && levels'[n] == Kept(levels[n], r)
            && levels'[n + 1] == next[..range.0] + newNames + next[range.1..]
            && forall i :: 0 <= i < |levels| && i != n && i != n + 1 ==> levels'[i] == levels[i]
  {
  }

  lemma GroupIsRemoved(level: seq<nat>, count: nat)
    requires count <= |level|
    ensures Kept(level, Interval(0, count)) == level[count..] && Picks(level, Interval(0, count)) == level[..count]
  {
    KeptInterval(level, count, |level|);
    assert level[..|level|] == level && level[count..|level|] == level[count..];
    PicksInterval(level, 0, count);
    assert level[0..count] == level[..count];
  }

  /** From a level below level 0, with the next level sorted: the group leaves the source level, and
      the new files take the place of the overlapping files of the next level. Exactly these files
      were merged. */
  lemma WhatIsReplaced(levels: seq<seq<nat>>, store: Store, levels': seq<seq<nat>>, store': Store, n: nat,
                       count: nat, s: Step)
    requires 1 <= n < |levels| && count <= |levels[n]| && Compacted(levels, store, levels', store', n, count, s)
    requires SortedLevel(Contents(store, Next(levels, n))) && LessEq(s.lo, s.hi)
    ensures n + 1 < |levels'| && levels'[n] == levels[n][count..]
    ensures var next, range := Next(levels, n), Range(Contents(store, Next(levels, n)), s.lo, s.hi);
            && s.merged == levels[n][..count] + next[range.0..range.1]
            && levels'[n + 1] == next[..range.0] + s.newNames + next[range.1..]
    ensures forall i :: 0 <= i < |levels| && i != n && i != n + 1 ==> levels'[i] == levels[i]
  {
    var next, range := Next(levels, n), Range(Contents(store, Next(levels, n)), s.lo, s.hi);
    var r := Removed(Contents(store, levels[n]), n, count, s.lo, s.hi);
    assert r == Interval(0, count);
    SortedIsContiguous(Contents(store, next), s.lo, s.hi);
    GroupIsRemoved(levels[n], count);
    PicksInterval(next, range.0, range.1);
    NewLevelsAt(levels, n, r, range, s.newNames);
  }

  lemma HullIsOrdered(fs: seq<File>, lo: Entry, hi: Entry)
    requires IsHull(fs, lo, hi) && Files(fs)
    ensures LessEq(lo, hi) && lo in Flatten(fs) && hi in Flatten(fs)
  {
    var i :| 0 <= i < |fs| && fs[i] != [] && lo == First(fs[i]);
    var j :| 0 <= j < |fs| && fs[j] != [] && hi == Last(fs[j]);
    HullBounds(fs, lo, hi, fs[i], lo);
    FlattenHas(fs, i, lo);
    FlattenHas(fs, j, hi);
  }

  lemma SuffixSorted(fs: seq<File>, k: nat)
    requires SortedLevel(fs) && k <= |fs|
    ensures SortedLevel(fs[k..])
  {
    assert fs == fs[..k] + fs[k..];
    FlattenAppend(fs[..k], fs[k..]);
    PartOfSorted(Flatten(fs[..k]), Flatten(fs[k..]));
    assert forall i :: 0 <= i < |fs[k..]| ==> fs[k..][i] in fs;
  }

  lemma ContentsSlice(store: Store, names: seq<nat>, a: nat, b: nat)
    requires a <= b <= |names|
    ensures Contents(store, names[a..b]) == Contents(store, names)[a..b]
  {
  }

  lemma ContentsAppend(store: Store, a: seq<nat>, b: seq<nat>)
    ensures Contents(store, a + b) == Contents(store, a) + Contents(store, b)
  {
  }

  lemma GroupInHull(store: Store, group: seq<nat>, lo: Entry, hi: Entry, x: Entry)
    requires FilesValid(store, group) && IsHull(Contents(store, group), lo, hi) && x in Mass(store, group)
    ensures LessEq(lo, x) && LessEq(x, hi)
  {
    MassIsFlat(store, group);
    FilesAreFiles(store, group);
    var i := FlattenMember(Contents(store, group), x);
    HullBounds(Contents(store, group), lo, hi, Contents(store, group)[i], x);
  }

  // Where the entries of the merged files come from.
  lemma MergedBelong(store: Store, group: seq<nat>, next: seq<nat>, lo: Entry, hi: Entry, a: nat, b: nat, x: Entry)
    requires FilesValid(store, group) && IsHull(Contents(store, group), lo, hi) && a <= b <= |next|
    requires x in Mass(store, group + next[a..b])
    ensures Belongs(Contents(store, next), lo, hi, a, b, x)
  {
    MassAppend(store, group, next[a..b]);
    if x in Mass(store, group) {
      GroupInHull(store, group, lo, hi, x);
    } else {
      MassIsFlat(store, next[a..b]);
      ContentsSlice(store, next, a, b);
    }
  }

  // The new files of a compaction from below level 0, compared with the next level.
  lemma NewFilesBelong(levels: seq<seq<nat>>, store: Store, levels': seq<seq<nat>>, store': Store, n: nat,
                       count: nat, s: Step)
    requires ValidDb(levels, store) && 1 <= n < |levels| && count <= |levels[n]|
    requires Compacted(levels, store, levels', store', n, count, s)
    requires SortedLevel(Contents(store, Next(levels, n))) && LessEq(s.lo, s.hi)
    ensures var fs, out := Contents(store, Next(levels, n)), Contents(store', s.newNames);
            && SortedLevel(out)
            && forall x <- Flatten(out) :: Belongs(fs, s.lo, s.hi, Range(fs, s.lo, s.hi).0, Range(fs, s.lo, s.hi).1, x)
  {
    var next, out := Next(levels, n), Contents(store', s.newNames);
    var range := Range(Contents(store, next), s.lo, s.hi);
    NewFiles(levels, store, levels', store', n, count, s);
    WhatIsReplaced(levels, store, levels', store', n, count, s);
    assert levels[n] in levels;
    forall x <- Flatten(out)
      ensures Belongs(Contents(store, next), s.lo, s.hi, range.0, range.1, x)
    {
      assert x in s.order && x in multiset(s.order);
      MergedBelong(store, levels[n][..count], next, s.lo, s.hi, range.0, range.1, x);
    }
  }

  lemma NewFilesExist(levels: seq<seq<nat>>, store: Store, levels': seq<seq<nat>>, store': Store, n: nat, count: nat,
                      s: Step)
    requires ValidDb(levels, store) && 1 <= n < |levels| && count <= |levels[n]|
    requires Compacted(levels, store, levels', store', n, count, s)
    requires SortedLevel(Contents(store, Next(levels, n))) && LessEq(s.lo, s.hi)
    requires s.lo in Flatten(Contents(store, levels[n][..count]))
    ensures s.newNames != []
  {
    var next, range := Next(levels, n), Range(Contents(store, Next(levels, n)), s.lo, s.hi);
    WhatIsReplaced(levels, store, levels', store', n, count, s);
    MassAppend(store, levels[n][..count], next[range.0..range.1]);
    MassIsFlat(store, levels[n][..count]);
    assert s.lo in multiset(s.order) && s.lo in s.order;
    NewFiles(levels, store, levels', store', n, count, s);
    assert Survives(s.lo, Flatten(Contents(store', s.newNames)));
  }

  /** The main result on compactions between sorted levels: the source level stays sorted, and the
      next level does if and only if the group's range does not fall between two of its files. */
  lemma CompactionKeepsOrder(levels: seq<seq<nat>>, store: Store, levels': seq<seq<nat>>, store': Store, n: nat,
                             count: nat, s: Step)
    requires ValidDb(levels, store) && 1 <= n < |levels| && count <= |levels[n]|
    requires Compacted(levels, store, levels', store', n, count, s)
    requires SortedLevel(Contents(store, levels[n])) && SortedLevel(Contents(store, Next(levels, n)))
    ensures n + 1 < |levels'| && SortedLevel(Contents(store', levels'[n]))
    ensures SortedLevel(Contents(store', levels'[n + 1])) <==> !InMiddle(Contents(store, Next(levels, n)), s.lo, s.hi)
  {
    var next, group := Next(levels, n), levels[n][..count];
    var fs, out := Contents(store, next), Contents(store', s.newNames);
    assert levels[n] in levels;
    FilesAreFiles(store, group);
    HullIsOrdered(Contents(store, group), s.lo, s.hi);
    WhatIsReplaced(levels, store, levels', store', n, count, s);
    SuffixOnNewDisk(store, store', levels[n], count);
    NewFilesBelong(levels, store, levels', store', n, count, s);
    NewFilesExist(levels, store, levels', store', n, count, s);
    NewLevelSorted(fs, s.lo, s.hi, out);
    assert next != [] ==> next in levels;
    NextOnNewDisk(store, store', next, s.newNames, Range(fs, s.lo, s.hi).0, Range(fs, s.lo, s.hi).1);
  }

  lemma SuffixOnNewDisk(store: Store, store': Store, level: seq<nat>, count: nat)
    requires FilesValid(store, level) && Extends(store, store') && count <= |level|
    requires SortedLevel(Contents(store, level))
    ensures SortedLevel(Contents(store', level[count..]))
  {
    MassFrame(store, store', level);
    SuffixSorted(Contents(store', level), count);
    ContentsSuffix(store', level, count);
  }

  lemma ContentsSuffix(store: Store, names: seq<nat>, k: nat)
    requires k <= |names|
    ensures Contents(store, names[k..]) == Contents(store, names)[k..]
  {
  }

  lemma NextOnNewDisk(store: Store, store': Store, next: seq<nat>, newNames: seq<nat>, a: nat, b: nat)
    requires FilesValid(store, next) && Extends(store, store') && a <= b <= |next|
    ensures Contents(store', next[..a] + newNames + next[b..])
            == Contents(store, next)[..a] + Contents(store', newNames) + Contents(store, next)[b..]
  {
    MassFrame(store, store', next);
    ContentsAppend(store', next[..a] + newNames, next[b..]);
    ContentsAppend(store', next[..a], newNames);
    ContentsSlice(store', next, 0, a);
    ContentsSlice(store', next, b, |next|);
    Ends(next, a, b);
    Ends(Contents(store', next), a, b);
  }

  lemma Ends<T>(s: seq<T>, a: nat, b: nat)
    requires a <= b <= |s|
    ensures s[0..a] == s[..a] && s[b..|s|] == s[b..]
  {
  }

  // ---------------------------------------------------------------- from level 0

  // What a compaction from level 0 merges, when the next level is sorted.
  lemma MergedFromZero(levels: seq<seq<nat>>, store: Store, count: nat, s: Step, r: seq<nat>, range: (nat, nat))
    requires ValidDb(levels, store) && 0 < |levels| && count <= |levels[0]| && Selects(levels, store, 0, count, s)
    requires SortedLevel(Contents(store, Next(levels, 0)))
    requires r == Picks(levels[0], Removed(Contents(store, levels[0]), 0, count, s.lo, s.hi))
    requires range == Range(Contents(store, Next(levels, 0)), s.lo, s.hi)
    ensures FilesValid(store, r) && range.0 <= range.1 <= |Next(levels, 0)|
    ensures s.merged == r + Next(levels, 0)[range.0..range.1]
  {
    assert levels[0] in levels;
    FilesAreFiles(store, levels[0][..count]);
    HullIsOrdered(Contents(store, levels[0][..count]), s.lo, s.hi);
    SortedIsContiguous(Contents(store, Next(levels, 0)), s.lo, s.hi);
    PicksInterval(Next(levels, 0), range.0, range.1);
    PicksValid(store, levels[0], Removed(Contents(store, levels[0]), 0, count, s.lo, s.hi));
  }

  lemma InMass(store: Store, r: seq<nat>, more: seq<nat>, x: Entry)
    requires x in Flatten(Contents(store, r))
    ensures x in Mass(store, r + more)
  {
    MassIsFlat(store, r);
    MassAppend(store, r, more);
  }

  // The output of a merge reaches as far as its input.
  lemma OutputReaches(order: seq<Entry>, out: seq<File>, hi: Entry)
    requires MergeOf(order, out) && hi in order
    ensures exists x <- Flatten(out) :: LessEq(hi, x)
  {
    assert Survives(hi, Flatten(out));
    var x :| x in Flatten(out) && x.key == hi.key && (x == hi || x.id > hi.id);
    LessEqMeaning(hi, x);
  }

  // Where the entries end that are merged from files with that boundary and a part of the next level.
  lemma MergedEnd(store: Store, group: seq<nat>, next: seq<nat>, lo: Entry, hi: Entry, a: nat, b: nat,
                  order: seq<Entry>, out: seq<File>)
    requires FilesValid(store, group) && IsHull(Contents(store, group), lo, hi) && a <= b <= |next|
    requires multiset(order) == Mass(store, group + next[a..b]) && MergeOf(order, out)
    ensures order != [] && EndsAt(Contents(store, next), hi, a, b, out)
  {
    FilesAreFiles(store, group);
    HullIsOrdered(Contents(store, group), lo, hi);
    InMass(store, group, next[a..b], hi);
    assert hi in multiset(order);
    OutputReaches(order, out, hi);
    forall x <- Flatten(out)
      ensures LessEq(x, hi) || x in Flatten(Contents(store, next)[a..b])
    {
      assert x in order && x in multiset(order);
      MergedBelong(store, group, next, lo, hi, a, b, x);
    }
  }

  // The next level after a compaction from level 0.
  lemma LevelOneIs(levels: seq<seq<nat>>, store: Store, levels': seq<seq<nat>>, store': Store, count: nat, s: Step)
    requires ValidDb(levels, store) && 0 < |levels| && count <= |levels[0]|
    requires Compacted(levels, store, levels', store', 0, count, s)
    ensures var fs, out := Contents(store, Next(levels, 0)), Contents(store', s.newNames);
            var range := Range(fs, s.lo, s.hi);
            |levels'| > 1 && Contents(store', levels'[1]) == fs[..range.0] + out + fs[range.1..]
  {
    var next := Next(levels, 0);
    var fs := Contents(store, next);
    var range := Range(fs, s.lo, s.hi);
    NewLevelsAt(levels, 0, Removed(Contents(store, levels[0]), 0, count, s.lo, s.hi), range, s.newNames);
    assert next != [] ==> next in levels;
    NextOnNewDisk(store, store', next, s.newNames, range.0, range.1);
  }

  /** From level 0, the range that counts is that of the new files: it starts at the entry that a merge
      of these entries starts with, and ends with the last of the level 0 files taken. It may be wider
      than the group's range, which alone decides what is merged of level 1 and where the new files
      go. Level 1 stays sorted if and only if the files that stay in it are clear of that range. */
  lemma LevelZeroKeepsOrder(levels: seq<seq<nat>>, store: Store, levels': seq<seq<nat>>, store': Store, count: nat,
                            s: Step, lo: Entry, hi: Entry)
    requires ValidDb(levels, store) && 0 < |levels| && count <= |levels[0]|
    requires Compacted(levels, store, levels', store', 0, count, s)
    requires SortedLevel(Contents(store, Next(levels, 0)))
    requires IsHull(Contents(store, Picks(levels[0], Removed(Contents(store, levels[0]), 0, count, s.lo, s.hi))),
                    lo, hi)
    ensures |levels'| > 1 && s.order != []
    ensures var fs := Contents(store, Next(levels, 0));
            var range := Range(fs, s.lo, s.hi);
            SortedLevel(Contents(store', levels'[1])) <==> Fits(fs, FirstKept(s.order), hi, range.0, range.1)
  {
    var next, out := Next(levels, 0), Contents(store', s.newNames);
    var fs := Contents(store, next);
    var r, range := Picks(levels[0], Removed(Contents(store, levels[0]), 0, count, s.lo, s.hi)), Range(fs, s.lo, s.hi);
    NewFiles(levels, store, levels', store', 0, count, s);
    MergedFromZero(levels, store, count, s, r, range);
    MergedEnd(store, r, next, lo, hi, range.0, range.1, s.order, out);
    OutputStarts(s.order);
    LevelOneIs(levels, store, levels', store', count, s);
    WideRangeSorted(fs, hi, range.0, range.1, out);
  }

  /** Levels that a compaction does not touch keep their contents. */
  lemma OtherLevels(levels: seq<seq<nat>>, store: Store, levels': seq<seq<nat>>, store': Store, n: nat, count: nat,
                    s: Step, l: nat)
    requires ValidDb(levels, store) && n < |levels| && count <= |levels[n]|
    requires Compacted(levels, store, levels', store', n, count, s)
    requires l < |levels| && l != n && l != n + 1
    ensures l < |levels'| && Contents(store', levels'[l]) == Contents(store, levels[l])
  {
    NewLevelsAt(levels, n, Removed(Contents(store, levels[n]), n, count, s.lo, s.hi),
                Range(Contents(store, Next(levels, n)), s.lo, s.hi), s.newNames);
    assert levels[l] in levels;
    MassFrame(store, store', levels[l]);
  }

  lemma {:induction false} KeptFrom<T>(s: seq<T>, r: seq<nat>, x: T) returns (i: nat)
    requires x in Kept(s, r)
    ensures i < |s| && s[i] == x && i !in r
  {
    var n := |s| - 1;
    if n !in r && s[n] == x {
      i := n;
    } else {
      i := KeptFrom(s[..n], r, x);
    }
  }

  /** A compaction from level 0 leaves no file there that overlaps the range of its group. */
  lemma LevelZeroIsClear(levels: seq<seq<nat>>, store: Store, levels': seq<seq<nat>>, store': Store, count: nat,
                         s: Step, f: nat)
    requires 0 < |levels| && count <= |levels[0]| && Compacted(levels, store, levels', store', 0, count, s)
    requires f in levels'[0]
    ensures f in levels[0] && !Overlaps(Content(store, f), s.lo, s.hi)
  {
    var fs := Contents(store, levels[0]);
    NewLevelsAt(levels, 0, Removed(fs, 0, count, s.lo, s.hi), Range(Contents(store, Next(levels, 0)), s.lo, s.hi),
                s.newNames);
    var i := KeptFrom(levels[0], Removed(fs, 0, count, s.lo, s.hi), f);
    var r := Selected(fs, count, s.lo, s.hi, |fs|);
    assert i in Interval(0, count) + r <==> i in Interval(0, count) || i in r;
    SelectedMember(fs, count, s.lo, s.hi, |fs|, i);
    InInterval(count, i);
  }

  lemma InInterval(count: nat, i: nat)
    ensures i in Interval(0, count) <==> i < count
  {
    if i < count {
      assert Interval(0, count)[i] == i;
    }
  }
}
