/** Levels of SST files, as lists of files that are lists of entries: what a compaction selects from
    a level and what it makes of it (src/table/db.cc:382-520). */
module Levels {
  import opened Lists
  import opened InternalEntry
  import opened Order
  import opened Sorted
  import opened Tools

  type File = seq<Entry>

  predicate Files(fs: seq<File>) {
    forall f <- fs :: f != [] && IsSorted(f)
  }

  function First(f: File): Entry
    requires f != []
  {
    f[0]
  }

  function Last(f: File): Entry
    requires f != []
  {
    f[|f| - 1]
  }

  // All entries of f come before e, or after it.
  predicate Below(f: File, e: Entry) {
    f != [] && Less(Last(f), e)
  }

  predicate Above(f: File, e: Entry) {
    f != [] && Less(e, First(f))
  }

  /** A level below level 0: its files follow each other in (key, id) order without overlap. */
  predicate SortedLevel(fs: seq<File>) {
    (forall f <- fs :: f != []) && StrictlySorted(Flatten(fs))
  }

  lemma FilesOfSortedLevel(fs: seq<File>, i: nat)
    requires SortedLevel(fs) && i < |fs|
    ensures fs[i] != [] && StrictlySorted(fs[i]) && IsSorted(fs[i])
  {
    FlattenPart(fs, i);
    var at := |Flatten(fs[..i])|;
    assert fs[i] in fs;
    forall j, k | 0 <= j < k < |fs[i]|
      ensures Less(fs[i][j], fs[i][k]) && LessEq(fs[i][j], fs[i][k])
    {
      assert fs[i][j] == Flatten(fs)[at..at + |fs[i]|][j] && fs[i][k] == Flatten(fs)[at..at + |fs[i]|][k];
      LessEqTotal(fs[i][j], fs[i][k]);
    }
  }

  // An earlier file of a sorted level ends before a later one starts.
  lemma FilesInOrder(fs: seq<File>, i: nat, j: nat)
    requires SortedLevel(fs) && i < j < |fs|
    ensures fs[i] != [] && fs[j] != [] && Less(Last(fs[i]), First(fs[j]))
  {
    FlattenPart(fs, i);
    FlattenPart(fs, j);
    assert fs[i] in fs && fs[j] in fs;
    assert fs[..j] == fs[..i + 1] + fs[i + 1..j];
    FlattenAppend(fs[..i + 1], fs[i + 1..j]);
    var a, b := |Flatten(fs[..i])|, |Flatten(fs[..j])|;
    assert Last(fs[i]) == Flatten(fs)[a..a + |fs[i]|][|fs[i]| - 1];
    assert First(fs[j]) == Flatten(fs)[b..b + |fs[j]|][0];
  }

  lemma SortedConcat(a: seq<Entry>, b: seq<Entry>)
    requires StrictlySorted(a) && StrictlySorted(b)
    requires forall x <- a, y <- b :: Less(x, y)
    ensures StrictlySorted(a + b)
  {
  }

  lemma PartOfSorted(a: seq<Entry>, b: seq<Entry>)
    requires StrictlySorted(a + b)
    ensures StrictlySorted(a) && StrictlySorted(b)
    ensures forall x <- a, y <- b :: Less(x, y)
  {
    var s := a + b;
    assert forall i :: 0 <= i < |a| ==> a[i] == s[i];
    assert forall i :: 0 <= i < |b| ==> b[i] == s[|a| + i];
  }

  // ---------------------------------------------------------------- the selected range

  /** The boundary of a group of files. */
  predicate IsHull(fs: seq<File>, lo: Entry, hi: Entry) {
    && (forall f <- fs :: f != [] && LessEq(lo, First(f)) && LessEq(Last(f), hi))
    && (exists f <- fs :: f != [] && lo == First(f))
    && (exists f <- fs :: f != [] && hi == Last(f))
  }

  lemma HullBounds(fs: seq<File>, lo: Entry, hi: Entry, f: File, x: Entry)
    requires IsHull(fs, lo, hi) && Files(fs) && f in fs && x in f
    ensures LessEq(lo, x) && LessEq(x, hi)
  {
    var i :| 0 <= i < |f| && f[i] == x;
    LessEqTotal(x, x);
    assert LessEq(First(f), x) && LessEq(x, Last(f));
    LessEqTransitive(lo, First(f), x);
    LessEqTransitive(x, Last(f), hi);
  }

  predicate Overlaps(f: File, lo: Entry, hi: Entry) {
    !Below(f, lo) && !Above(f, hi)
  }

  /** A file does not overlap a range if and only if all its entries come before it or all come behind it. */
  lemma OverlapsMeaning(f: File, lo: Entry, hi: Entry)
    requires f != [] && IsSorted(f) && LessEq(lo, hi)
    ensures !Overlaps(f, lo, hi) <==> (forall x <- f :: Less(x, lo)) || (forall x <- f :: Less(hi, x))
    ensures Below(f, lo) <==> forall x <- f :: Less(x, lo)
    ensures Above(f, hi) <==> forall x <- f :: Less(hi, x)
  {
    forall x <- f
      ensures LessEq(First(f), x) && LessEq(x, Last(f))
    {
      var i :| 0 <= i < |f| && f[i] == x;
      LessEqTotal(x, x);
    }
    forall x <- f
      ensures Less(Last(f), lo) ==> Less(x, lo)
      ensures Less(hi, First(f)) ==> Less(hi, x)
    {
      LessEqTransitiveIf(x, Last(f), lo);
      LessEqTransitiveIf(hi, First(f), x);
    }
  }

  /** Where the scan of the next level stops: at the first file that is past the range. */
  function Stop(fs: seq<File>, lo: Entry, hi: Entry, i: nat): (s: nat)
    requires i <= |fs|
    ensures i <= s <= |fs|
    decreases |fs| - i
  {
    if i == |fs| || (!Below(fs[i], lo) && Above(fs[i], hi)) then i else Stop(fs, lo, hi, i + 1)
  }

  /** The files it has selected by then. */
  function Reached(fs: seq<File>, lo: Entry, n: nat): seq<nat>
    requires n <= |fs|
  {
    if n == 0 then []
    else if Below(fs[n - 1], lo) then Reached(fs, lo, n - 1)
    else Reached(fs, lo, n - 1) + [n - 1]
  }

  /** The positions in the next level of the files that are compacted. */
  function Overlapping(fs: seq<File>, lo: Entry, hi: Entry): seq<nat> {
    Reached(fs, lo, Stop(fs, lo, hi, 0))
  }

  // Where the new files go when none is selected: insert_from_index.
  function InsertAt(fs: seq<File>, lo: Entry, hi: Entry): nat {
    if Stop(fs, lo, hi, 0) == 0 then 0 else |fs|
  }

  /** The range of the level that the new files replace. */
  function Range(fs: seq<File>, lo: Entry, hi: Entry): (r: (nat, nat))
    ensures r.0 <= r.1 <= |fs|
  {
    var selected := Reached(fs, lo, Stop(fs, lo, hi, 0));
    if selected == [] then (InsertAt(fs, lo, hi), InsertAt(fs, lo, hi))
    else
      ReachedAscends(fs, lo, Stop(fs, lo, hi, 0));
      assert |selected| > 1 ==> selected[0] < selected[|selected| - 1];
      (selected[0], selected[|selected| - 1] + 1)
  }

  lemma {:induction false} ReachedAscends(fs: seq<File>, lo: Entry, n: nat)
    requires n <= |fs|
    ensures var r := Reached(fs, lo, n);
            Ascending(r) && forall i :: 0 <= i < |r| ==> r[i] < n
  {
    if n > 0 {
      ReachedAscends(fs, lo, n - 1);
      var r := Reached(fs, lo, n - 1);
      assert Reached(fs, lo, n) == r || Reached(fs, lo, n) == r + [n - 1];
    }
  }

  lemma {:induction false} ReachedMember(fs: seq<File>, lo: Entry, n: nat, i: nat)
    requires n <= |fs|
    ensures i in Reached(fs, lo, n) <==> i < n && !Below(fs[i], lo)
  {
    if n > 0 {
      ReachedMember(fs, lo, n - 1, i);
    }
  }

  lemma {:induction false} ReachedStays(fs: seq<File>, lo: Entry, m: nat, n: nat)
    requires m <= n <= |fs| && forall i :: m <= i < n ==> Below(fs[i], lo)
    ensures Reached(fs, lo, n) == Reached(fs, lo, m)
  {
    if m < n {
      ReachedStays(fs, lo, m, n - 1);
    }
  }

  /** The selected positions lie in the range that is replaced; it starts at the first of them and
      ends behind the last. */
  lemma RangeHoldsSelected(fs: seq<File>, lo: Entry, hi: Entry)
    ensures var r, o := Range(fs, lo, hi), Overlapping(fs, lo, hi);
            && (o == [] ==> r.0 == r.1)
            && (o != [] ==> Reached(fs, lo, r.0) == [] && Reached(fs, lo, r.1) == o)
  {
    var r, o, n := Range(fs, lo, hi), Overlapping(fs, lo, hi), Stop(fs, lo, hi, 0);
    if o != [] {
      ReachedAscends(fs, lo, n);
      forall i | 0 <= i < n && (i < r.0 || i >= r.1)
        ensures Below(fs[i], lo)
      {
        ReachedMember(fs, lo, n, i);
        NotBetween(o, i);
      }
      ReachedStays(fs, lo, 0, r.0);
      assert o[|o| - 1] < n;
      ReachedStays(fs, lo, r.1, n);
    }
  }

  // What is below the first or above the last of an ascending list is not in it.
  lemma NotBetween(r: seq<nat>, i: nat)
    requires Ascending(r) && r != [] && (i < r[0] || i > r[|r| - 1])
    ensures i !in r
  {
  }

  /** The positions in a range that the scan has skipped: files below [lo, hi] that lie behind a file
      that overlaps it. */
  function Skipped(fs: seq<File>, lo: Entry, a: nat, b: nat): seq<nat>
    requires a <= b <= |fs|
  {
    if a == b then []
    else if Below(fs[b - 1], lo) then Skipped(fs, lo, a, b - 1) + [b - 1]
    else Skipped(fs, lo, a, b - 1)
  }

  lemma {:induction false} SkippedMember(fs: seq<File>, lo: Entry, a: nat, b: nat, i: nat)
    requires a <= b <= |fs|
    ensures i in Skipped(fs, lo, a, b) <==> a <= i < b && Below(fs[i], lo)
  {
    if a < b {
      SkippedMember(fs, lo, a, b - 1, i);
    }
  }

  // ---------------------------------------------------------------- in a sorted level

  /** Files before a are below the range [lo, hi], those from b on above it, the rest overlap it. */
  predicate IsCut(fs: seq<File>, lo: Entry, hi: Entry, a: nat, b: nat) {
    && a <= b <= |fs|
    && (forall i :: 0 <= i < a ==> Below(fs[i], lo))
    && (forall i :: a <= i < b ==> Overlaps(fs[i], lo, hi))
    && (forall i :: b <= i < |fs| ==> Above(fs[i], hi))
  }

  function Leading(fs: seq<File>, lo: Entry, i: nat): (a: nat)
    requires i <= |fs|
    ensures i <= a <= |fs| && (forall k :: i <= k < a ==> Below(fs[k], lo)) && (a < |fs| ==> !Below(fs[a], lo))
    decreases |fs| - i
  {
    if i == |fs| || !Below(fs[i], lo) then i else Leading(fs, lo, i + 1)
  }

  lemma {:induction false} StopIsFirst(fs: seq<File>, lo: Entry, hi: Entry, i: nat)
    requires i <= |fs|
    ensures var s := Stop(fs, lo, hi, i);
            && (forall k :: i <= k < s ==> Below(fs[k], lo) || !Above(fs[k], hi))
            && (s < |fs| ==> !Below(fs[s], lo) && Above(fs[s], hi))
    decreases |fs| - i
  {
    if i < |fs| && (Below(fs[i], lo) || !Above(fs[i], hi)) {
      StopIsFirst(fs, lo, hi, i + 1);
    }
  }

  // In a sorted level, what follows a file that is not below e is not below it either; what follows
  // a file above e is above it.
  lemma FollowersOf(fs: seq<File>, e: Entry, i: nat, k: nat)
    requires SortedLevel(fs) && i < k < |fs|
    ensures !Below(fs[i], e) ==> !Below(fs[k], e)
    ensures Above(fs[i], e) ==> Above(fs[k], e)
  {
    FilesInOrder(fs, i, k);
    FirstToLast(fs, i);
    FirstToLast(fs, k);
    var l, f := Last(fs[i]), First(fs[k]);
    LessEqTotal(l, f);
    if !Below(fs[i], e) {
      LessEqTransitive(e, l, f);
      LessEqTransitive(e, f, Last(fs[k]));
    }
    if Above(fs[i], e) {
      LessEqTotal(e, First(fs[i]));
      LessEqTransitive(e, First(fs[i]), l);
      LessEqTransitive(e, l, f);
    }
  }

  lemma FirstToLast(fs: seq<File>, i: nat)
    requires SortedLevel(fs) && i < |fs|
    ensures fs[i] != [] && LessEq(First(fs[i]), Last(fs[i]))
  {
    FilesOfSortedLevel(fs, i);
    LessEqTotal(First(fs[i]), First(fs[i]));
  }

  // The scan of a sorted level finds the cut.
  lemma ScanFindsCut(fs: seq<File>, lo: Entry, hi: Entry)
    requires SortedLevel(fs) && LessEq(lo, hi)
    ensures Leading(fs, lo, 0) <= Stop(fs, lo, hi, 0)
    ensures IsCut(fs, lo, hi, Leading(fs, lo, 0), Stop(fs, lo, hi, 0))
  {
    var a, b := Leading(fs, lo, 0), Stop(fs, lo, hi, 0);
    StopIsFirst(fs, lo, hi, 0);
    forall k | a < k < |fs|
      ensures !Below(fs[k], lo)
    {
      FollowersOf(fs, lo, a, k);
    }
    forall k | b < k < |fs|
      ensures Above(fs[k], hi)
    {
      FollowersOf(fs, hi, b, k);
    }
  }

  function Interval(a: nat, b: nat): (r: seq<nat>)
    requires a <= b
    ensures |r| == b - a && forall k :: 0 <= k < |r| ==> r[k] == a + k
  {
    seq(b - a, k requires 0 <= k => a + k)
  }

  lemma {:induction false} ReachedInterval(fs: seq<File>, lo: Entry, a: nat, n: nat)
    requires a <= n <= |fs|
    requires (forall i :: 0 <= i < a ==> Below(fs[i], lo)) && (forall i :: a <= i < n ==> !Below(fs[i], lo))
    ensures Reached(fs, lo, n) == Interval(a, n)
  {
    if n > a {
      ReachedInterval(fs, lo, a, n - 1);
    } else if n > 0 {
      ReachedInterval(fs, lo, n - 1, n - 1);
    }
  }

  /** The range falls between two files of the level and overlaps none. */
  predicate InMiddle(fs: seq<File>, lo: Entry, hi: Entry) {
    && (forall f <- fs :: !Overlaps(f, lo, hi))
    && (exists f <- fs :: Below(f, lo)) && (exists f <- fs :: Above(f, hi))
  }

  // The range that is replaced, in terms of the cut.
  lemma RangeIsCut(fs: seq<File>, lo: Entry, hi: Entry)
    requires SortedLevel(fs) && LessEq(lo, hi)
    ensures var a, b, r := Leading(fs, lo, 0), Stop(fs, lo, hi, 0), Range(fs, lo, hi);
            && IsCut(fs, lo, hi, a, b)
            && r == (if a < b then (a, b) else if b == 0 then (0, 0) else (|fs|, |fs|))
            && Reached(fs, lo, b) == Interval(a, b)
            && (InMiddle(fs, lo, hi) <==> 0 < a == b < |fs|)
  {
    var a, b := Leading(fs, lo, 0), Stop(fs, lo, hi, 0);
    ScanFindsCut(fs, lo, hi);
    CutReaches(fs, lo, hi, a, b);
    CutRange(fs, lo, hi, a, b);
    MiddleCut(fs, lo, hi, a, b);
  }

  lemma CutRange(fs: seq<File>, lo: Entry, hi: Entry, a: nat, b: nat)
    requires a <= b == Stop(fs, lo, hi, 0) && Reached(fs, lo, b) == Interval(a, b)
    ensures Range(fs, lo, hi) == (if a < b then (a, b) else if b == 0 then (0, 0) else (|fs|, |fs|))
  {
  }

  lemma CutReaches(fs: seq<File>, lo: Entry, hi: Entry, a: nat, b: nat)
    requires IsCut(fs, lo, hi, a, b)
    ensures Reached(fs, lo, b) == Interval(a, b)
  {
    assert forall i :: a <= i < b ==> Overlaps(fs[i], lo, hi);
    ReachedInterval(fs, lo, a, b);
  }

  lemma MiddleCut(fs: seq<File>, lo: Entry, hi: Entry, a: nat, b: nat)
    requires SortedLevel(fs) && LessEq(lo, hi) && IsCut(fs, lo, hi, a, b)
    ensures InMiddle(fs, lo, hi) <==> 0 < a == b < |fs|
  {
    NotBoth(fs, lo, hi);
    if a < b {
      assert Overlaps(fs[a], lo, hi) && fs[a] in fs;
    } else if 0 < a < |fs| {
      assert Below(fs[0], lo) && Above(fs[b], hi);
    }
  }

  // No file of a sorted level is both below and above a range.
  lemma NotBoth(fs: seq<File>, lo: Entry, hi: Entry)
    requires SortedLevel(fs) && LessEq(lo, hi)
    ensures forall f <- fs :: !(Below(f, lo) && Above(f, hi))
  {
    forall f <- fs
      ensures !(Below(f, lo) && Above(f, hi))
    {
      var i :| 0 <= i < |fs| && fs[i] == f;
      FirstToLast(fs, i);
      if Below(f, lo) && Above(f, hi) {
        LessEqTotal(hi, First(f));
        LessEqTransitive(lo, hi, First(f));
        LessEqTransitive(lo, First(f), Last(f));
      }
    }
  }

  // ---------------------------------------------------------------- the new level

  lemma BelowAll(fs: seq<File>, e: Entry, x: Entry)
    requires Files(fs) && (forall f <- fs :: Below(f, e)) && x in Flatten(fs)
    ensures Less(x, e)
  {
    var i := FlattenMember(fs, x);
    var j :| 0 <= j < |fs[i]| && fs[i][j] == x;
    assert fs[i] in fs;
    LessEqTotal(x, x);
    LessEqTransitive(x, Last(fs[i]), e) by {
      LessEqTotal(Last(fs[i]), e);
    }
  }

  lemma AboveAll(fs: seq<File>, e: Entry, x: Entry)
    requires Files(fs) && (forall f <- fs :: Above(f, e)) && x in Flatten(fs)
    ensures Less(e, x)
  {
    var i := FlattenMember(fs, x);
    var j :| 0 <= j < |fs[i]| && fs[i][j] == x;
    assert fs[i] in fs;
    LessEqTotal(x, x);
    LessEqTransitive(e, First(fs[i]), x) by {
      LessEqTotal(e, First(fs[i]));
    }
  }

  lemma FlattenLevels(p: seq<File>, q: seq<File>, r: seq<File>)
    ensures Flatten(p + q + r) == Flatten(p) + Flatten(q) + Flatten(r)
    ensures Flatten(p + q + r) == Flatten(p) + (Flatten(q) + Flatten(r))
  {
    FlattenAppend(p + q, r);
    FlattenAppend(p, q);
  }

  lemma ThreeSlices<T>(fs: seq<T>, a: nat, b: nat)
    requires a <= b <= |fs|
    ensures fs[..a] + fs[a..b] + fs[b..] == fs
  {
  }

  // A level in three parts.
  lemma ThreeParts(fs: seq<File>, a: nat, b: nat)
    requires a <= b <= |fs|
    ensures Flatten(fs) == Flatten(fs[..a]) + (Flatten(fs[a..b]) + Flatten(fs[b..]))
  {
    ThreeSlices(fs, a, b);
    FlattenLevels(fs[..a], fs[a..b], fs[b..]);
  }

  /** The files around [a, b) are clear of the range. */
  predicate Fits(fs: seq<File>, lo: Entry, hi: Entry, a: nat, b: nat) {
    && (forall i :: 0 <= i < a && i < |fs| ==> Below(fs[i], lo))
    && (forall i :: b <= i < |fs| ==> Above(fs[i], hi))
  }

  // An entry that the new files may hold: one of the range, or of the files they replace.
  predicate Belongs(fs: seq<File>, lo: Entry, hi: Entry, a: nat, b: nat, x: Entry)
    requires a <= b <= |fs|
  {
    (LessEq(lo, x) && LessEq(x, hi)) || x in Flatten(fs[a..b])
  }

  lemma BelongsBetween(fs: seq<File>, lo: Entry, hi: Entry, a: nat, b: nat, x: Entry)
    requires SortedLevel(fs) && a <= b <= |fs| && Fits(fs, lo, hi, a, b) && Belongs(fs, lo, hi, a, b, x)
    ensures forall y <- Flatten(fs[..a]) :: Less(y, x)
    ensures forall y <- Flatten(fs[b..]) :: Less(x, y)
  {
    ThreeParts(fs, a, b);
    PartOfSorted(Flatten(fs[..a]), Flatten(fs[a..b]) + Flatten(fs[b..]));
    PartOfSorted(Flatten(fs[a..b]), Flatten(fs[b..]));
    forall i | 0 <= i < |fs|
      ensures fs[i] != [] && IsSorted(fs[i])
    {
      FilesOfSortedLevel(fs, i);
    }
    forall y <- Flatten(fs[..a])
      ensures Less(y, x)
    {
      BelowAll(fs[..a], lo, y);
      LessEqTransitiveIf(y, lo, x);
    }
    forall y <- Flatten(fs[b..])
      ensures Less(x, y)
    {
      AboveAll(fs[b..], hi, y);
      LessEqTransitiveIf(x, hi, y);
    }
  }

  lemma LessEqTransitiveIf(x: Entry, y: Entry, z: Entry)
    ensures Less(x, y) && LessEq(y, z) ==> Less(x, z)
    ensures LessEq(x, y) && Less(y, z) ==> Less(x, z)
  {
    LessEqTotal(x, y);
    LessEqTotal(y, z);
    if LessEq(x, y) && LessEq(y, z) {
      LessEqTransitive(x, y, z);
    }
  }

  lemma SortedThree(a: seq<Entry>, b: seq<Entry>, c: seq<Entry>)
    requires StrictlySorted(a) && StrictlySorted(b) && StrictlySorted(c)
    requires forall x <- b :: (forall y <- a :: Less(y, x)) && (forall y <- c :: Less(x, y))
    requires forall x <- a, y <- c :: Less(x, y)
    ensures StrictlySorted(a + b + c)
  {
    SortedConcat(a, b);
    SortedConcat(a + b, c);
  }

  lemma PartsSorted(fs: seq<File>, a: nat, b: nat)
    requires SortedLevel(fs) && a <= b <= |fs|
    ensures StrictlySorted(Flatten(fs[..a])) && StrictlySorted(Flatten(fs[b..]))
  {
    ThreeParts(fs, a, b);
    PartOfSorted(Flatten(fs[..a]), Flatten(fs[a..b]) + Flatten(fs[b..]));
    PartOfSorted(Flatten(fs[a..b]), Flatten(fs[b..]));
  }

  /** Putting sorted new files where they fit keeps the level sorted. */
  lemma ReplaceRange(fs: seq<File>, lo: Entry, hi: Entry, a: nat, b: nat, out: seq<File>)
    requires SortedLevel(fs) && a <= b <= |fs| && Fits(fs, lo, hi, a, b) && SortedLevel(out)
    requires forall x <- Flatten(out) :: Belongs(fs, lo, hi, a, b, x)
    ensures SortedLevel(fs[..a] + out + fs[b..])
  {
    PartsSorted(fs, a, b);
    SortedAcross(fs, a, b);
    forall x <- Flatten(out)
      ensures (forall y <- Flatten(fs[..a]) :: Less(y, x)) && (forall y <- Flatten(fs[b..]) :: Less(x, y))
    {
      BelongsBetween(fs, lo, hi, a, b, x);
    }
    SortedThree(Flatten(fs[..a]), Flatten(out), Flatten(fs[b..]));
    FlattenLevels(fs[..a], out, fs[b..]);
  }

  lemma SortedAcross(fs: seq<File>, a: nat, b: nat)
    requires SortedLevel(fs) && a <= b <= |fs|
    ensures forall x <- Flatten(fs[..a]), y <- Flatten(fs[b..]) :: Less(x, y)
  {
    ThreeParts(fs, a, b);
    PartOfSorted(Flatten(fs[..a]), Flatten(fs[a..b]) + Flatten(fs[b..]));
    forall y <- Flatten(fs[b..])
      ensures y in Flatten(fs[a..b]) + Flatten(fs[b..])
    {
    }
  }

  /** Putting them behind a file that is above them does not. */
  lemma PushBackUnsorted(fs: seq<File>, hi: Entry, out: seq<File>)
    requires Flatten(out) != [] && (forall x <- Flatten(out) :: LessEq(x, hi))
    requires SortedLevel(fs) && exists f <- fs :: Above(f, hi)
    ensures !SortedLevel(fs + out)
  {
    var i :| 0 <= i < |fs| && Above(fs[i], hi);
    var x, y := Flatten(out)[0], First(fs[i]);
    FlattenHas(fs, i, y);
    FlattenAppend(fs, out);
    if SortedLevel(fs + out) {
      PartOfSorted(Flatten(fs), Flatten(out));
      LessEqTransitiveIf(x, hi, y);
      LessIsStrictOrder(x, y, x);
    }
  }

  /** A level after a compaction into it. The new files lie in the range of the compacted group, or
      replace files of this level. The level stays sorted unless the range falls between two of its
      files: then they are pushed to the back, behind larger ones. */
  lemma NewLevelSorted(fs: seq<File>, lo: Entry, hi: Entry, out: seq<File>)
    requires SortedLevel(fs) && LessEq(lo, hi) && SortedLevel(out) && out != []
    requires forall x <- Flatten(out) :: Belongs(fs, lo, hi, Range(fs, lo, hi).0, Range(fs, lo, hi).1, x)
    ensures var r := Range(fs, lo, hi);
            SortedLevel(fs[..r.0] + out + fs[r.1..]) <==> !InMiddle(fs, lo, hi)
  {
    var a, b, r := Leading(fs, lo, 0), Stop(fs, lo, hi, 0), Range(fs, lo, hi);
    RangeIsCut(fs, lo, hi);
    if a < b || b == 0 || a == |fs| {
      ReplaceRange(fs, lo, hi, r.0, r.1, out);
    } else {
      assert fs[..|fs|] == fs && fs[|fs|..] == [] && fs[|fs|..|fs|] == [];
      assert fs + out + [] == fs + out;
      assert Above(fs[b], hi);
      assert out[0] in out;
      FlattenHas(out, 0, First(out[0]));
      PushBackUnsorted(fs, hi, out);
    }
  }

  // ---------------------------------------------------------------- a wider range

  // The new files hold something from hi on, and nothing behind hi but what they replace.
  predicate EndsAt(fs: seq<File>, hi: Entry, a: nat, b: nat, out: seq<File>)
    requires a <= b <= |fs|
  {
    && (exists x <- Flatten(out) :: LessEq(hi, x))
    && (forall x <- Flatten(out) :: LessEq(x, hi) || x in Flatten(fs[a..b]))
  }

  lemma AroundSorted(p: seq<File>, out: seq<File>, r: seq<File>)
    requires StrictlySorted(Flatten(p + out + r))
    ensures forall y <- Flatten(p), x <- Flatten(out) :: Less(y, x)
    ensures forall x <- Flatten(out), y <- Flatten(r) :: Less(x, y)
  {
    FlattenLevels(p, out, r);
    PartOfSorted(Flatten(p) + Flatten(out), Flatten(r));
    PartOfSorted(Flatten(p), Flatten(out));
    forall x <- Flatten(out)
      ensures x in Flatten(p) + Flatten(out)
    {
    }
  }

  lemma FitsIsNeeded(fs: seq<File>, hi: Entry, a: nat, b: nat, out: seq<File>)
    requires SortedLevel(fs) && a <= b <= |fs| && SortedLevel(out) && out != [] && EndsAt(fs, hi, a, b, out)
    requires SortedLevel(fs[..a] + out + fs[b..])
    ensures out[0] != [] && Fits(fs, First(out[0]), hi, a, b)
  {
    AroundSorted(fs[..a], out, fs[b..]);
    FirstToLast(out, 0);
    LastIn(out, 0);
    forall i | 0 <= i < a
      ensures Below(fs[i], First(out[0]))
    {
      FirstToLast(fs, i);
      LastIn(fs[..a], i);
    }
    forall i | b <= i < |fs|
      ensures Above(fs[i], hi)
    {
      FirstToLast(fs, i);
      LastIn(fs[b..], i - b);
      var x :| x in Flatten(out) && LessEq(hi, x);
      LessEqTransitiveIf(hi, x, First(fs[i]));
    }
  }

  lemma LastIn(fs: seq<File>, i: nat)
    requires i < |fs| && fs[i] != []
    ensures First(fs[i]) in Flatten(fs) && Last(fs[i]) in Flatten(fs)
  {
    FlattenHas(fs, i, First(fs[i]));
    FlattenHas(fs, i, Last(fs[i]));
  }

  // The entries of a sorted level, from the first one on.
  lemma FirstOfLevel(out: seq<File>, x: Entry)
    requires SortedLevel(out) && x in Flatten(out)
    ensures out != [] && out[0] != [] && LessEq(First(out[0]), x)
  {
    FlattenFirst(out);
    assert out[0] in out;
    var all := Flatten(out);
    assert all[0] == First(out[0]);
    var i :| 0 <= i < |all| && all[i] == x;
    LessEqTotal(all[0], x);
  }

  // What the new files hold belongs to the range from their first entry on.
  lemma FromFirst(fs: seq<File>, hi: Entry, a: nat, b: nat, out: seq<File>)
    requires a <= b <= |fs| && SortedLevel(out) && out != [] && EndsAt(fs, hi, a, b, out)
    ensures out[0] != [] && forall x <- Flatten(out) :: Belongs(fs, First(out[0]), hi, a, b, x)
  {
    assert out[0] in out;
    forall x <- Flatten(out)
      ensures Belongs(fs, First(out[0]), hi, a, b, x)
    {
      FirstOfLevel(out, x);
    }
  }

  /** New files that reach to hi keep a level sorted if and only if the files around them are clear
      of the range from their first entry to hi. */
  lemma WideRangeSorted(fs: seq<File>, hi: Entry, a: nat, b: nat, out: seq<File>)
    requires SortedLevel(fs) && a <= b <= |fs| && SortedLevel(out) && out != [] && EndsAt(fs, hi, a, b, out)
    ensures out[0] != []
    ensures SortedLevel(fs[..a] + out + fs[b..]) <==> Fits(fs, First(out[0]), hi, a, b)
  {
    FromFirst(fs, hi, a, b, out);
    if Fits(fs, First(out[0]), hi, a, b) {
      ReplaceRange(fs, First(out[0]), hi, a, b, out);
    } else if SortedLevel(fs[..a] + out + fs[b..]) {
      FitsIsNeeded(fs, hi, a, b, out);
    }
  }

  // ---------------------------------------------------------------- the loops

  /** The positions from `from` to n of files that overlap a range. */
  function Selected(fs: seq<File>, from: nat, lo: Entry, hi: Entry, n: nat): seq<nat>
    requires n <= |fs|
  {
    if n <= from then []
    else if Overlaps(fs[n - 1], lo, hi) then Selected(fs, from, lo, hi, n - 1) + [n - 1]
    else Selected(fs, from, lo, hi, n - 1)
  }

  lemma {:induction false} SelectedAscends(fs: seq<File>, from: nat, lo: Entry, hi: Entry, n: nat)
    requires n <= |fs|
    ensures var r := Selected(fs, from, lo, hi, n);
            Ascending(r) && forall i :: 0 <= i < |r| ==> from <= r[i] < n
  {
    if n > from {
      SelectedAscends(fs, from, lo, hi, n - 1);
      var r := Selected(fs, from, lo, hi, n - 1);
      assert Selected(fs, from, lo, hi, n) == r || Selected(fs, from, lo, hi, n) == r + [n - 1];
    }
  }

  /** Exactly the other files that overlap the range are selected. */
  lemma {:induction false} SelectedMember(fs: seq<File>, from: nat, lo: Entry, hi: Entry, n: nat, i: nat)
    requires n <= |fs|
    ensures i in Selected(fs, from, lo, hi, n) <==> from <= i < n && Overlaps(fs[i], lo, hi)
  {
    if n > from {
      SelectedMember(fs, from, lo, hi, n - 1, i);
    }
  }

  /** The positions in the source level of the files that are compacted: the group, and at level 0
      the other files that overlap it. */
  function Removed(fs: seq<File>, level: nat, count: nat, lo: Entry, hi: Entry): seq<nat> {
    if level == 0 then Interval(0, count) + Selected(fs, count, lo, hi, |fs|) else Interval(0, count)
  }

  lemma RemovedAscends(fs: seq<File>, level: nat, count: nat, lo: Entry, hi: Entry)
    requires count <= |fs|
    ensures var r := Removed(fs, level, count, lo, hi);
            Ascending(r) && forall i :: 0 <= i < |r| ==> r[i] < |fs|
  {
    SelectedAscends(fs, count, lo, hi, |fs|);
  }

  lemma OverlappingAscends(fs: seq<File>, lo: Entry, hi: Entry)
    ensures var r := Overlapping(fs, lo, hi);
            Ascending(r) && forall i :: 0 <= i < |r| ==> r[i] < |fs|
  {
    ReachedAscends(fs, lo, Stop(fs, lo, hi, 0));
  }

  lemma HullStep(fs: seq<File>, f: File, lo: Entry, hi: Entry)
    requires IsHull(fs, lo, hi) && f != []
    ensures IsHull(fs + [f], if Less(First(f), lo) then First(f) else lo, if Less(hi, Last(f)) then Last(f) else hi)
  {
    var lo' := if Less(First(f), lo) then First(f) else lo;
    var hi' := if Less(hi, Last(f)) then Last(f) else hi;
    LessEqTotal(First(f), lo);
    LessEqTotal(hi, Last(f));
    LessEqTotal(First(f), First(f));
    LessEqTotal(Last(f), Last(f));
    forall g <- fs
      ensures LessEq(lo', First(g)) && LessEq(Last(g), hi')
    {
      LessEqTotal(First(g), lo);
      LessEqTotal(Last(g), hi);
      if lo' != lo {
        LessEqTransitive(lo', lo, First(g));
      }
      if hi' != hi {
        LessEqTransitive(Last(g), hi, hi');
      }
    }
    assert f in fs + [f];
    assert forall g <- fs :: g in fs + [f];
  }

  /** The boundary of a group of files. */
  method GroupBoundary(fs: seq<File>) returns (lo: Entry, hi: Entry)
    requires fs != [] && forall i :: 0 <= i < |fs| ==> fs[i] != []
    ensures IsHull(fs, lo, hi)
  {
    lo, hi := First(fs[0]), Last(fs[0]);
    LessEqTotal(lo, lo);
    LessEqTotal(hi, hi);
    for i := 1 to |fs|
      invariant IsHull(fs[..i], lo, hi)
    {
      HullStep(fs[..i], fs[i], lo, hi);
      assert fs[..i + 1] == fs[..i] + [fs[i]];
      if Less(First(fs[i]), lo) {
        lo := First(fs[i]);
      }
      if Less(hi, Last(fs[i])) {
        hi := Last(fs[i]);
      }
    }
    assert fs[..|fs|] == fs;
  }

  /** The search of level 0 for other files that overlap the group. */
  method LevelZeroOverlaps(fs: seq<File>, count: nat, lo: Entry, hi: Entry) returns (r: seq<nat>)
    requires count <= |fs| && forall i :: 0 <= i < |fs| ==> fs[i] != []
    ensures r == Selected(fs, count, lo, hi, |fs|)
  {
    r := [];
    for i := 0 to |fs|
      invariant r == Selected(fs, count, lo, hi, i)
    {
      if i >= count && !(Less(hi, First(fs[i])) || Less(Last(fs[i]), lo)) {
        r := r + [i];
      }
    }
  }

  /** The scan of the next level. */
  method ScanNext(fs: seq<File>, lo: Entry, hi: Entry) returns (r: seq<nat>, insertAt: nat)
    requires forall i :: 0 <= i < |fs| ==> fs[i] != []
    ensures r == Overlapping(fs, lo, hi)
    ensures r == [] ==> insertAt == InsertAt(fs, lo, hi)
  {
    r, insertAt := [], |fs|;
    for i := 0 to |fs|
      invariant Stop(fs, lo, hi, 0) == Stop(fs, lo, hi, i)
      invariant r == Reached(fs, lo, i)
      invariant r == [] ==> insertAt == |fs|
    {
      if Less(Last(fs[i]), lo) {
        continue;
      } else if Less(hi, First(fs[i])) {
        if i == 0 {
          insertAt := 0;
        }
        break;
      } else {
        if insertAt == |fs| {
          insertAt := i;
        }
        r := r + [i];
      }
    }
  }
}
