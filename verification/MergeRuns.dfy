/** The files of a merge in terms of bytes: which entries go into which file, and how long a file is
    (src/table/db.cc:606-689). */
module MergeRuns {
  import opened Lists
  import opened InternalEntry
  import opened MergeOutput

  lemma Associate<T>(a: seq<T>, b: seq<T>, c: seq<T>)
    ensures (a + b) + c == a + (b + c)
  {
  }

  lemma EncodedFirst(es: seq<Entry>, e: Entry)
    ensures EncodedAll([e] + es) == Encoded(e) + EncodedAll(es)
  {
    assert ([e] + es)[1..] == es;
  }

  lemma {:induction false} EncodedMore(es: seq<Entry>, e: Entry)
    ensures EncodedAll(es + [e]) == EncodedAll(es) + Encoded(e)
  {
    if es == [] {
      EncodedFirst([], e);
      assert es + [e] == [e] + [];
    } else {
      var first, rest := es[0], es[1..];
      EncodedMore(rest, e);
      EncodedFirst(rest, first);
      EncodedFirst(rest + [e], first);
      assert es == [first] + rest;
      assert es + [e] == [first] + (rest + [e]);
      Associate(Encoded(first), EncodedAll(rest), Encoded(e));
    }
  }

  /** The sizes the merge adds up are those of the bytes a file has for its entries. */
  lemma {:induction false} SizeIsBytes(es: seq<Entry>)
    ensures TotalSize(es) == |EncodedAll(es)|
  {
    if es != [] {
      var n := |es| - 1;
      SizeIsBytes(es[..n]);
      EncodedMore(es[..n], es[n]);
      assert es == es[..n] + [es[n]];
    }
  }

  /** The entries that are not followed by another one of their key. */
  function LastOfEach(s: seq<Entry>): seq<Entry> {
    if |s| <= 1 then s
    else if s[0].key == s[1].key then LastOfEach(s[1..])
    else [s[0]] + LastOfEach(s[1..])
  }

  lemma LastOfTail(s: seq<Entry>)
    requires |s| > 1
    ensures LastOfEach(s) == if s[0].key == s[1].key then LastOfEach(s[1..]) else [s[0]] + LastOfEach(s[1..])
  {
  }

  lemma {:induction false} LastOfMore(s: seq<Entry>, e: Entry)
    ensures s != [] ==> LastOfEach(s) != [] && LastOfEach(s)[|LastOfEach(s)| - 1] == s[|s| - 1]
    ensures LastOfEach(s + [e]) == PushBuffer(LastOfEach(s), e)
  {
    var t := s + [e];
    if |s| == 1 {
      LastOfTail(t);
      assert t[1..] == [e];
    } else if |s| > 1 {
      LastOfMore(s[1..], e);
      LastOfTail(s);
      LastOfTail(t);
      assert t[1..] == s[1..] + [e] && t[0] == s[0] && t[1] == s[1];
      PushBehind(s[0], LastOfEach(s[1..]), e);
    }
  }

  lemma PushBehind(x: Entry, buffer: seq<Entry>, e: Entry)
    requires buffer != []
    ensures PushBuffer([x] + buffer, e) == [x] + PushBuffer(buffer, e)
  {
  }

  lemma {:induction false} LastIsShorter(s: seq<Entry>)
    ensures |EncodedAll(LastOfEach(s))| <= |EncodedAll(s)|
  {
    if |s| > 1 {
      LastIsShorter(s[1..]);
      if s[0].key != s[1].key {
        var rest := LastOfEach(s[1..]);
        assert ([s[0]] + rest)[1..] == rest;
      }
    }
  }

  // A run of the input that becomes one file.
  predicate Fits(part: seq<Entry>) {
    part != [] && |EncodedAll(part)| < 0x20_0000
  }

  // The entry that follows a run would have taken it to the limit.
  predicate EndsBefore(part: seq<Entry>, next: seq<Entry>) {
    next != [] && |EncodedAll(part)| + |Encoded(next[0])| >= 0x20_0000
  }

  /** Runs of a list that are each as long as fits into a file of 2 MB. */
  predicate LongestRuns(order: seq<Entry>, parts: seq<seq<Entry>>) {
    && Flatten(parts) == order
    && (forall i :: 0 <= i < |parts| ==> Fits(parts[i]))
    && (forall i :: 0 < i < |parts| ==> EndsBefore(parts[i - 1], parts[i]))
  }

  predicate FilesOf(parts: seq<seq<Entry>>, files: seq<seq<Entry>>) {
    |files| == |parts| && forall i :: 0 <= i < |files| ==> files[i] == LastOfEach(parts[i])
  }

  /** The files of a merge: the input in longest runs, and of each run the last entry of every key. */
  ghost predicate MergedInRuns(order: seq<Entry>, files: seq<seq<Entry>>) {
    exists parts :: LongestRuns(order, parts) && FilesOf(parts, files)
  }

  // The state of the fold: closed runs, and the run of the buffer.
  predicate RunsSoFar(order: seq<Entry>, o: Output, parts: seq<seq<Entry>>, last: seq<Entry>) {
    && LongestRuns(Flatten(parts), parts) && FilesOf(parts, o.files)
    && order == Flatten(parts) + last && (order != [] ==> last != [])
    && (last != [] ==> Fits(last) && (parts != [] ==> EndsBefore(parts[|parts| - 1], last)))
    && o.buffer == LastOfEach(last) && o.size == |EncodedAll(last)|
  }

  lemma OneMoreFits(parts: seq<seq<Entry>>, last: seq<Entry>)
    requires (forall i :: 0 <= i < |parts| ==> Fits(parts[i])) && Fits(last)
    ensures forall i :: 0 <= i < |parts + [last]| ==> Fits((parts + [last])[i])
  {
  }

  lemma OneMoreEnds(parts: seq<seq<Entry>>, last: seq<Entry>)
    requires forall i :: 0 < i < |parts| ==> EndsBefore(parts[i - 1], parts[i])
    requires parts != [] ==> EndsBefore(parts[|parts| - 1], last)
    ensures forall i :: 0 < i < |parts + [last]| ==> EndsBefore((parts + [last])[i - 1], (parts + [last])[i])
  {
    var more := parts + [last];
    forall i | 0 < i < |more|
      ensures EndsBefore(more[i - 1], more[i])
    {
      if i < |parts| {
        assert more[i] == parts[i] && more[i - 1] == parts[i - 1];
      }
    }
  }

  lemma OneMoreRun(parts: seq<seq<Entry>>, last: seq<Entry>)
    requires LongestRuns(Flatten(parts), parts) && Fits(last)
    requires parts != [] ==> EndsBefore(parts[|parts| - 1], last)
    ensures LongestRuns(Flatten(parts) + last, parts + [last])
  {
    FlattenMore(parts, last);
    OneMoreFits(parts, last);
    OneMoreEnds(parts, last);
  }

  lemma OneFits(e: Entry)
    ensures EncodedAll([e]) == Encoded(e) && LastOfEach([e]) == [e] && PushBuffer([], e) == [e]
  {
    EncodedMore([], e);
    assert [] + [e] == [e];
  }

  lemma FlushedRuns(order: seq<Entry>, o: Output, parts: seq<seq<Entry>>, last: seq<Entry>, e: Entry)
    requires RunsSoFar(order, o, parts, last) && SizeOf(e) < LIMIT && o.size + SizeOf(e) >= LIMIT
    ensures RunsSoFar(order + [e], Feed(o, e), parts + [last], [e])
  {
    OneFits(e);
    OneMoreRun(parts, last);
    FlattenMore(parts, last);
  }

  lemma PushedRuns(order: seq<Entry>, o: Output, parts: seq<seq<Entry>>, last: seq<Entry>, e: Entry)
    requires RunsSoFar(order, o, parts, last) && o.size + SizeOf(e) < LIMIT
    requires last == [] ==> parts == []
    ensures RunsSoFar(order + [e], Feed(o, e), parts, last + [e])
  {
    EncodedMore(last, e);
    LastOfMore(last, e);
    assert order + [e] == Flatten(parts) + (last + [e]);
  }

  lemma {:induction false} FoldRuns(order: seq<Entry>) returns (parts: seq<seq<Entry>>, last: seq<Entry>)
    requires AllSmall(order)
    ensures RunsSoFar(order, Fold(order), parts, last) && (last == [] ==> parts == [])
  {
    if order == [] {
      parts, last := [], [];
    } else {
      var n := |order| - 1;
      var e := order[n];
      assert order == order[..n] + [e];
      parts, last := FoldRuns(order[..n]);
      if Fold(order[..n]).size + SizeOf(e) >= LIMIT {
        FlushedRuns(order[..n], Fold(order[..n]), parts, last, e);
        parts, last := parts + [last], [e];
      } else {
        PushedRuns(order[..n], Fold(order[..n]), parts, last, e);
        last := last + [e];
      }
    }
  }

  /** What a merge of small entries writes: the input in longest runs, one file for each, with the last
      entry of every key of its run; so every file has less than 2 MB of entries. */
  lemma FilesAreRuns(order: seq<Entry>)
    requires forall e <- order :: |Encoded(e)| < 0x20_0000
    ensures MergedInRuns(order, Finish(Fold(order)))
    ensures forall f <- Finish(Fold(order)) :: |EncodedAll(f)| < 0x20_0000
  {
    var parts, last := FoldRuns(order);
    var all := FinishedRuns(order, Fold(order), parts, last);
    RunsAreShort(order, all, Finish(Fold(order)));
  }

  lemma FinishedRuns(order: seq<Entry>, o: Output, parts: seq<seq<Entry>>, last: seq<Entry>)
    returns (all: seq<seq<Entry>>)
    requires RunsSoFar(order, o, parts, last) && (last == [] ==> parts == [])
    ensures LongestRuns(order, all) && FilesOf(all, Finish(o))
  {
    LastNotEmpty(last);
    all := parts;
    if last != [] {
      OneMoreRun(parts, last);
      all := parts + [last];
    }
  }

  lemma RunsAreShort(order: seq<Entry>, parts: seq<seq<Entry>>, files: seq<seq<Entry>>)
    requires LongestRuns(order, parts) && FilesOf(parts, files)
    ensures forall f <- files :: |EncodedAll(f)| < 0x20_0000
  {
    forall f <- files
      ensures |EncodedAll(f)| < 0x20_0000
    {
      var i :| 0 <= i < |files| && files[i] == f;
      LastIsShorter(parts[i]);
    }
  }

  lemma LastNotEmpty(s: seq<Entry>)
    ensures s == [] <==> LastOfEach(s) == []
  {
    if s != [] {
      LastOfMore(s, s[0]);
    }
  }
}
