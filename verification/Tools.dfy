/** Vector and string helpers (include/util/tools.h, src/util/tools.cc). */
module Tools {

  // ---------------------------------------------------------------- Remove

  /** The elements whose subscripts are not in r, in order. */
  function Kept<T>(s: seq<T>, r: seq<nat>): seq<T> {
    if s == [] then []
    else if |s| - 1 in r then Kept(s[..|s| - 1], r)
    else Kept(s[..|s| - 1], r) + [s[|s| - 1]]
  }

  predicate Ascending(r: seq<nat>) {
    forall i, j :: 0 <= i < j < |r| ==> r[i] < r[j]
  }

  // A stretch that loses nothing.
  lemma {:induction false} KeptStretch<T>(s: seq<T>, r: seq<nat>, from: nat, to: nat)
    requires from <= to <= |s| && forall k :: from <= k < to ==> k !in r
    ensures Kept(s[..to], r) == Kept(s[..from], r) + s[from..to]
  {
    if from < to {
      KeptStretch(s, r, from, to - 1);
      assert s[..to][..to - 1] == s[..to - 1];
    }
  }

  lemma KeptSkips<T>(s: seq<T>, r: seq<nat>, k: nat)
    requires k < |s| && k in r
    ensures Kept(s[..k + 1], r) == Kept(s[..k], r)
  {
    assert s[..k + 1][..k] == s[..k];
  }

  // std::copy to an earlier place of the same array.
  method CopyDown<T>(a: array<T>, from: nat, to: nat, dest: nat)
    requires dest <= from <= to <= a.Length
    modifies a
    ensures a[dest..dest + (to - from)] == old(a[from..to])
    ensures a[..dest] == old(a[..dest]) && a[to..] == old(a[to..])
  {
    for i := from to to
      invariant forall k :: from <= k < i ==> a[dest + k - from] == old(a[k])
      invariant forall k :: 0 <= k < dest || i <= k < a.Length ==> a[k] == old(a[k])
    {
      a[dest + i - from] := a[i];
    }
  }

  // Subscripts between neighbours of an ascending list are not in it.
  lemma Between(r: seq<nat>, i: nat, k: nat)
    requires Ascending(r) && i < |r| && r[i] < k && (i + 1 < |r| ==> k < r[i + 1])
    ensures k !in r
  {
    forall j | 0 <= j < |r|
      ensures r[j] != k
    {
      assert j < i ==> r[j] < r[i];
      assert i + 1 < j ==> r[i + 1] < r[j];
    }
  }

  lemma KeptStep<T>(s: seq<T>, r: seq<nat>, i: nat, to: nat)
    requires Ascending(r) && i < |r| && r[i] < to <= |s| && (i + 1 < |r| ==> to <= r[i + 1])
    ensures Kept(s[..to], r) == Kept(s[..r[i]], r) + s[r[i] + 1..to]
  {
    forall k | r[i] + 1 <= k < to
      ensures k !in r
    {
      Between(r, i, k);
    }
    KeptSkips(s, r, r[i]);
    KeptStretch(s, r, r[i] + 1, to);
  }

  lemma SameSuffix<T>(a: seq<T>, s: seq<T>, k: nat, to: nat)
    requires k < to <= |a| == |s| && a[k..] == s[k..]
    ensures a[k + 1..to] == s[k + 1..to] && a[to..] == s[to..]
  {
    assert forall j :: k <= j < |a| ==> a[j] == a[k..][j - k] && s[j] == s[k..][j - k];
  }

  lemma Glue<T>(s: seq<T>, k: nat, m: nat)
    requires k <= m <= |s|
    ensures s[..m] == s[..k] + s[k..m]
  {
  }

  // The stretch behind r[i] that one copy moves down by i + 1 places.
  method MoveStretch<T>(a: array<T>, r: seq<nat>, i: nat, to: nat, ghost s: seq<T>)
    requires Ascending(r) && i < |r| && r[i] < to <= a.Length == |s| && i <= r[i]
    requires i + 1 < |r| ==> to <= r[i + 1]
    requires a[..r[i] - i] == Kept(s[..r[i]], r) && a[r[i]..] == s[r[i]..]
    modifies a
    ensures i + 1 <= to && a[..to - (i + 1)] == Kept(s[..to], r) && a[to..] == s[to..]
  {
    KeptStep(s, r, i, to);
    SameSuffix(a[..], s, r[i], to);
    ghost var before, stretch := a[..r[i] - i], a[r[i] + 1..to];
    CopyDown(a, r[i] + 1, to, r[i] - i);
    Glue(a[..], r[i] - i, to - (i + 1));
    assert a[..r[i] - i] == before && a[r[i] - i..to - (i + 1)] == stretch;
  }

  lemma KeptUpToFirst<T>(s: seq<T>, r: seq<nat>)
    requires Ascending(r) && r != [] && r[0] < |s|
    ensures Kept(s[..r[0]], r) == s[..r[0]]
  {
    KeptStretch(s, r, 0, r[0]);
  }

  lemma KeptAll<T>(s: seq<T>)
    ensures Kept(s, []) == s
  {
    KeptStretch(s, [], 0, |s|);
    assert s[..|s|] == s;
  }

  /** Remove: shifts the kept elements together in place and returns how many they are. */
  method Remove<T>(a: array<T>, r: seq<nat>) returns (n: nat)
    requires Ascending(r) && forall i :: 0 <= i < |r| ==> r[i] < a.Length
    modifies a
    ensures n <= a.Length && a[..n] == Kept(old(a[..]), r)
  {
    ghost var s := a[..];
    if r == [] {
      KeptAll(s);
      return a.Length;
    }
    KeptUpToFirst(s, r);
    for i := 0 to |r| - 1
      invariant i <= r[i] && a[..r[i] - i] == Kept(s[..r[i]], r) && a[r[i]..] == s[r[i]..]
    {
      MoveStretch(a, r, i, r[i + 1], s);
    }
    MoveStretch(a, r, |r| - 1, a.Length, s);
    assert s[..a.Length] == s;
    n := a.Length - |r|;
  }

  // ---------------------------------------------------------------- RearrangeFilesInManifest

  /** Replaces [first, second) by the new files. It refuses an empty range inside the list. */
  method RearrangeFiles<T>(files: seq<T>, first: nat, second: nat, newFiles: seq<T>) returns (ok: bool, r: seq<T>)
    requires first <= second <= |files|
    ensures ok <==> first < second || first == 0 || first == |files|
    ensures r == if ok then files[..first] + newFiles + files[second..] else files
  {
    if first == second {
      if second == 0 {
        return true, newFiles + files;
      } else if second == |files| {
        return true, files + newFiles;
      }
      return false, files;
    }
    return true, files[..first] + newFiles + files[second..];
  }

  // ---------------------------------------------------------------- Split

  function Find(s: string, c: char, start: nat): (k: nat)
    requires start <= |s|
    ensures start <= k <= |s| && (k < |s| ==> s[k] == c) && forall i :: start <= i < k ==> s[i] != c
    decreases |s| - start
  {
    if start == |s| || s[start] == c then start else Find(s, c, start + 1)
  }

  /** The parts of s between separators; an empty last part does not count. */
  function Pieces(s: string, c: char): (parts: seq<string>)
    decreases |s|
  {
    var k := Find(s, c, 0);
    if k < |s| then [s[..k]] + Pieces(s[k + 1..], c) else if s == "" then [] else [s]
  }

  lemma {:induction false} FindFrom(s: string, c: char, start: nat, k: nat)
    requires start <= k <= |s|
    ensures Find(s, c, k) == start + Find(s[start..], c, k - start)
    decreases |s| - k
  {
    if k < |s| && s[k] != c {
      FindFrom(s, c, start, k + 1);
    }
  }

  lemma PiecesFrom(s: string, c: char, start: nat, end: nat)
    requires start <= |s| && end == Find(s, c, start)
    ensures Pieces(s[start..], c)
            == if end < |s| then [s[start..end]] + Pieces(s[end + 1..], c)
               else if start == |s| then [] else [s[start..]]
  {
    FindFrom(s, c, start, start);
    if end < |s| {
      SliceOfSuffix(s, start, end);
      FirstPieceIs(s[start..], c, end - start);
    }
  }

  lemma SliceOfSuffix(s: string, start: nat, end: nat)
    requires start <= end < |s|
    ensures s[start..][..end - start] == s[start..end]
    ensures s[start..][end - start + 1..] == s[end + 1..]
  {
  }

  lemma FirstPieceIs(t: string, c: char, k: nat)
    requires k == Find(t, c, 0) && k < |t|
    ensures Pieces(t, c) == [t[..k]] + Pieces(t[k + 1..], c)
  {
  }

  method Split(s: string, c: char) returns (parts: seq<string>)
    ensures parts == Pieces(s, c)
  {
    parts := [];
    var start: nat, end: nat := 0, Find(s, c, 0);
    while end < |s|
      invariant start <= |s| && end == Find(s, c, start)
      invariant parts + Pieces(s[start..], c) == Pieces(s, c)
      decreases |s| - start
    {
      PiecesFrom(s, c, start, end);
      parts := parts + [s[start..end]];
      start := end + 1;
      end := Find(s, c, start);
    }
    PiecesFrom(s, c, start, end);
    var last := s[start..];
    if |last| > 0 {
      parts := parts + [last];
    }
  }

  /** Every part followed by the separator. */
  function Ended(parts: seq<string>, c: char): string {
    if parts == [] then "" else parts[0] + [c] + Ended(parts[1..], c)
  }

  lemma {:induction false} EndedMore(parts: seq<string>, p: string, c: char)
    ensures Ended(parts + [p], c) == Ended(parts, c) + p + [c]
  {
    if parts != [] {
      assert (parts + [p])[1..] == parts[1..] + [p];
      EndedMore(parts[1..], p, c);
    } else {
      assert (parts + [p])[1..] == [];
    }
  }

  lemma FirstPiece(p: string, rest: string, c: char)
    requires c !in p
    ensures Pieces(p + [c] + rest, c) == [p] + Pieces(rest, c)
  {
    var s := p + [c] + rest;
    var k := Find(s, c, 0);
    assert s[|p|] == c;
    assert forall i :: 0 <= i < |p| ==> s[i] == p[i] && p[i] in p;
    assert s[..k] == p && s[k + 1..] == rest;
  }

  /** Splitting what was joined gives the parts back, if no part has the separator in it. */
  lemma {:induction false} PiecesOfEnded(parts: seq<string>, c: char)
    requires forall p <- parts :: c !in p
    ensures Pieces(Ended(parts, c), c) == parts
  {
    if parts != [] {
      PiecesOfEnded(parts[1..], c);
      FirstPiece(parts[0], Ended(parts[1..], c), c);
    }
  }

  lemma {:induction false} EndedEnds(parts: seq<string>, c: char)
    requires parts != []
    ensures Ended(parts, c) != "" && Ended(parts, c)[|Ended(parts, c)| - 1] == c
  {
    if |parts| > 1 {
      EndedEnds(parts[1..], c);
    }
  }

  lemma OnePiece(p: string, c: char)
    requires c !in p && p != ""
    ensures Pieces(p, c) == [p]
  {
    assert forall i :: 0 <= i < |p| ==> p[i] in p;
  }

  // A text without its last character.
  function Shortened(s: string): string {
    if s == "" then "" else s[..|s| - 1]
  }

  lemma ShortenEnded(p: string, rest: string, c: char)
    ensures Shortened(p + [c] + rest) == if rest == "" then p else p + [c] + Shortened(rest)
  {
  }

  /** The same without the last separator, if the last part is not empty. */
  lemma {:induction false} PiecesOfJoined(parts: seq<string>, c: char)
    requires parts != [] && parts[|parts| - 1] != "" && forall p <- parts :: c !in p
    ensures Pieces(Shortened(Ended(parts, c)), c) == parts
  {
    var rest := Ended(parts[1..], c);
    assert parts[0] in parts;
    ShortenEnded(parts[0], rest, c);
    if |parts| == 1 {
      OnePiece(parts[0], c);
    } else {
      PiecesOfJoined(parts[1..], c);
      EndedEnds(parts[1..], c);
      FirstPiece(parts[0], Shortened(rest), c);
    }
  }

  /** If the last part is empty, it is lost. */
  lemma PiecesOfOpenEnded(parts: seq<string>, c: char)
    requires parts != [] && parts[|parts| - 1] == "" && forall p <- parts :: c !in p
    ensures Pieces(Shortened(Ended(parts, c)), c) == parts[..|parts| - 1]
  {
    var init := parts[..|parts| - 1];
    assert parts == init + [""];
    EndedMore(init, "", c);
    assert Shortened(Ended(parts, c)) == Ended(init, c);
    PiecesOfEnded(init, c);
  }

  /** Whatever is split, no part has the separator in it, nor any character s does not have. */
  lemma {:induction false} PiecesAreClean(s: string, c: char)
    ensures forall p <- Pieces(s, c) :: c !in p && forall x <- p :: x in s
    decreases |s|
  {
    var k := Find(s, c, 0);
    if k < |s| {
      PiecesAreClean(s[k + 1..], c);
    }
  }
}
