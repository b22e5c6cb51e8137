/** What the merge loop writes, as a fold over the entries in the order they leave the queue:
    an entry replaces the previous one of the same key, and a file is closed before the running
    size reaches the limit (src/table/db.cc:606-639). */
module MergeOutput {
  import opened Lists
  import opened InternalEntry
  import opened Order
  import opened Sorted

  const LIMIT: nat := 0x20_0000  // DataFileFormat::kApproximateSSTFileSize

  function SizeOf(e: Entry): nat {
    |Encoded(e)|
  }

  function TotalSize(es: seq<Entry>): nat {
    if es == [] then 0 else TotalSize(es[..|es| - 1]) + SizeOf(es[|es| - 1])
  }

  // Closed files, the output buffer, and current_sst_size.
  datatype Output = Output(files: seq<seq<Entry>>, buffer: seq<Entry>, size: nat)

  function Flush(o: Output): Output {
    Output(o.files + [o.buffer], [], 0)
  }

  // The buffer after e: e replaces a last entry of the same key.
  function PushBuffer(buffer: seq<Entry>, e: Entry): seq<Entry> {
    var n := |buffer|;
    if n > 0 && buffer[n - 1].key == e.key then buffer[..n - 1] + [e] else buffer + [e]
  }

  function Push(o: Output, e: Entry): Output {
    Output(o.files, PushBuffer(o.buffer, e), o.size + SizeOf(e))
  }

  function Feed(o: Output, e: Entry): Output {
    Push(if o.size + SizeOf(e) >= LIMIT then Flush(o) else o, e)
  }

  function Fold(order: seq<Entry>): Output {
    if order == [] then Output([], [], 0) else Feed(Fold(order[..|order| - 1]), order[|order| - 1])
  }

  function Finish(o: Output): seq<seq<Entry>> {
    if o.buffer == [] then o.files else o.files + [o.buffer]
  }

  /** Entries of distinct keys that fit into one file are written to one file. */
  lemma {:induction false} FewEntries(order: seq<Entry>)
    requires TotalSize(order) < LIMIT && forall i, j :: 0 <= i < j < |order| ==> order[i].key != order[j].key
    ensures Fold(order) == Output([], order, TotalSize(order))
  {
    if order != [] {
      var n := |order| - 1;
      FewEntries(order[..n]);
      FewStep(order, order[..n], order[n]);
    }
  }

  lemma FewStep(order: seq<Entry>, before: seq<Entry>, e: Entry)
    requires order == before + [e] && TotalSize(order) < LIMIT
    requires Fold(before) == Output([], before, TotalSize(before))
    requires before != [] ==> before[|before| - 1].key != e.key
    ensures Fold(order) == Output([], order, TotalSize(order))
  {
    OneMoreSize(before, e);
    assert order[..|before|] == before;
    AnotherKey(before, e, TotalSize(before));
  }

  lemma AnotherKey(buffer: seq<Entry>, e: Entry, size: nat)
    requires size + SizeOf(e) < LIMIT && (buffer != [] ==> buffer[|buffer| - 1].key != e.key)
    ensures Feed(Output([], buffer, size), e) == Output([], buffer + [e], size + SizeOf(e))
  {
  }

  // ---------------------------------------------------------------- properties of the output

  predicate AllSmall(es: seq<Entry>) {
    forall e <- es :: SizeOf(e) < LIMIT
  }

  predicate KeysIncrease(s: seq<Entry>) {
    forall i, j :: 0 <= i < j < |s| ==> KeyLess(s[i].key, s[j].key)
  }

  /** A well-formed merged file. */
  predicate GoodFile(s: seq<Entry>) {
    s != [] && KeysIncrease(s) && TotalSize(s) < LIMIT
  }

  // e is in the output, or an entry of its key with a greater id is.
  predicate Survives(e: Entry, out: seq<Entry>) {
    exists x <- out :: x.key == e.key && (x == e || x.id > e.id)
  }

  // What has been written once the entries of `order` have left the queue.
  predicate Written(order: seq<Entry>, all: seq<Entry>) {
    && (order == [] <==> all == [])
    && (order != [] ==> all[|all| - 1] == order[|order| - 1])
    && StrictlySorted(all)
    && (forall x <- all :: x in order)
    && (forall e <- order :: Survives(e, all))
  }

  // The buffer would make a good file; the running size also counts the replaced entries.
  predicate BufferFits(buffer: seq<Entry>, size: nat) {
    && (buffer != [] ==> GoodFile(buffer))
    && TotalSize(buffer) <= size < LIMIT
  }

  // The state of the fold, before or after a flush.
  predicate Correct(order: seq<Entry>, o: Output) {
    && (forall f <- o.files :: GoodFile(f))
    && BufferFits(o.buffer, o.size)
    && Written(order, Flatten(o.files) + o.buffer)
  }

  // All is what was written so far: everything in it is smaller than what comes next.
  lemma AppendKeepsSorted(all: seq<Entry>, e: Entry)
    requires StrictlySorted(all) && (all != [] ==> Less(all[|all| - 1], e))
    ensures StrictlySorted(all + [e])
  {
    forall i | 0 <= i < |all|
      ensures Less(all[i], e)
    {
      LessEqTotal(all[i], all[|all| - 1]);
      LessIsStrictOrder(all[i], all[|all| - 1], e);
    }
  }

  lemma AppendKeepsKeys(buffer: seq<Entry>, e: Entry)
    requires KeysIncrease(buffer)
    requires buffer != [] ==> KeyLess(buffer[|buffer| - 1].key, e.key)
    ensures KeysIncrease(buffer + [e])
  {
    forall i | 0 <= i < |buffer|
      ensures KeyLess(buffer[i].key, e.key)
    {
      if i < |buffer| - 1 {
        KeyTransitive(buffer[i].key, buffer[|buffer| - 1].key, e.key);
      }
    }
  }

  lemma SurviveMore(order: seq<Entry>, all: seq<Entry>, e: Entry)
    requires forall x <- order :: Survives(x, all)
    ensures forall x <- order + [e] :: Survives(x, all + [e])
  {
    assert e in all + [e];
    forall x <- order
      ensures Survives(x, all + [e])
    {
      var y :| y in all && y.key == x.key && (y == x || y.id > x.id);
      assert y in all + [e];
    }
  }

  // The last entry l gives way to a newer entry of its key.
  lemma SurviveReplaced(order: seq<Entry>, all: seq<Entry>, l: Entry, e: Entry)
    requires forall x <- order :: Survives(x, all + [l])
    requires e.key == l.key && e.id > l.id
    ensures forall x <- order + [e] :: Survives(x, all + [e])
  {
    assert e in all + [e];
    forall x <- order
      ensures Survives(x, all + [e])
    {
      var y :| y in all + [l] && y.key == x.key && (y == x || y.id > x.id);
      if y in all {
        assert y in all + [e];
      }
    }
  }

  lemma WriteMore(order: seq<Entry>, all: seq<Entry>, e: Entry)
    requires StrictlySorted(order + [e]) && Written(order, all)
    ensures Written(order + [e], all + [e])
    ensures all != [] ==> Less(all[|all| - 1], e)
  {
    if order != [] {
      assert Less((order + [e])[|order| - 1], (order + [e])[|order|]);
    }
    AppendKeepsSorted(all, e);
    SurviveMore(order, all, e);
  }

  lemma WriteReplaced(order: seq<Entry>, all: seq<Entry>, l: Entry, e: Entry)
    requires StrictlySorted(order + [e]) && Written(order, all + [l]) && l.key == e.key
    ensures Written(order + [e], all + [e])
  {
    WriteMore(order, all + [l], e);
    KeyIrreflexive(e.key);
    assert all != [] ==> Less((all + [l])[|all| - 1], (all + [l])[|all|]);
    if all != [] {
      LessIsStrictOrder(all[|all| - 1], l, e);
    }
    assert forall i :: 0 <= i < |all| ==> all[i] == (all + [l])[i];
    AppendKeepsSorted(all, e);
    SurviveReplaced(order, all, l, e);
  }

  lemma BufferAppends(buffer: seq<Entry>, size: nat, e: Entry)
    requires BufferFits(buffer, size) && size + SizeOf(e) < LIMIT
    requires buffer != [] ==> KeyLess(buffer[|buffer| - 1].key, e.key)
    ensures BufferFits(buffer + [e], size + SizeOf(e))
  {
    AppendKeepsKeys(buffer, e);
    assert (buffer + [e])[..|buffer|] == buffer;
  }

  lemma BufferShrinks(init: seq<Entry>, l: Entry, size: nat)
    requires BufferFits(init + [l], size)
    ensures BufferFits(init, size)
    ensures init != [] ==> KeyLess(init[|init| - 1].key, l.key)
  {
    var buffer := init + [l];
    assert buffer[..|init|] == init;
    assert forall i :: 0 <= i < |init| ==> init[i] == buffer[i];
    assert init != [] ==> KeyLess(buffer[|init| - 1].key, buffer[|init|].key);
  }

  lemma WrittenReplaced(order: seq<Entry>, closed: seq<Entry>, init: seq<Entry>, l: Entry, e: Entry)
    requires StrictlySorted(order + [e]) && Written(order, closed + (init + [l])) && l.key == e.key
    ensures Written(order + [e], closed + (init + [e]))
  {
    assert closed + (init + [l]) == (closed + init) + [l];
    WriteReplaced(order, closed + init, l, e);
    assert closed + (init + [e]) == (closed + init) + [e];
  }

  lemma WrittenAppends(order: seq<Entry>, closed: seq<Entry>, buffer: seq<Entry>, e: Entry)
    requires StrictlySorted(order + [e]) && Written(order, closed + buffer)
    ensures Written(order + [e], closed + (buffer + [e]))
    ensures buffer != [] ==> Less(buffer[|buffer| - 1], e)
  {
    WriteMore(order, closed + buffer, e);
    assert closed + (buffer + [e]) == (closed + buffer) + [e];
    assert buffer != [] ==> (closed + buffer)[|closed + buffer| - 1] == buffer[|buffer| - 1];
  }

  lemma PushReplaces(order: seq<Entry>, o: Output, e: Entry, init: seq<Entry>, l: Entry)
    requires StrictlySorted(order + [e]) && Correct(order, o) && o.size + SizeOf(e) < LIMIT
    requires o.buffer == init + [l] && l.key == e.key
    ensures Correct(order + [e], Output(o.files, init + [e], o.size + SizeOf(e)))
  {
    WrittenReplaced(order, Flatten(o.files), init, l, e);
    BufferShrinks(init, l, o.size);
    BufferAppends(init, o.size, e);
  }

  lemma PushAppends(order: seq<Entry>, o: Output, e: Entry)
    requires StrictlySorted(order + [e]) && Correct(order, o) && o.size + SizeOf(e) < LIMIT
    requires o.buffer != [] ==> o.buffer[|o.buffer| - 1].key != e.key
    ensures Correct(order + [e], Output(o.files, o.buffer + [e], o.size + SizeOf(e)))
  {
    WrittenAppends(order, Flatten(o.files), o.buffer, e);
    BufferAppends(o.buffer, o.size, e);
  }

  lemma PushCorrect(order: seq<Entry>, o: Output, e: Entry)
    requires StrictlySorted(order + [e]) && Correct(order, o) && o.size + SizeOf(e) < LIMIT
    ensures Correct(order + [e], Push(o, e))
  {
    var n := |o.buffer|;
    if n > 0 && o.buffer[n - 1].key == e.key {
      PushReplaces(order, o, e, o.buffer[..n - 1], o.buffer[n - 1]);
    } else {
      PushAppends(order, o, e);
    }
  }

  lemma FlushCorrect(order: seq<Entry>, o: Output)
    requires Correct(order, o) && o.buffer != []
    ensures Correct(order, Flush(o))
  {
    assert (o.files + [o.buffer])[..|o.files|] == o.files;
    assert Flatten(o.files + [o.buffer]) + [] == Flatten(o.files) + o.buffer;
  }

  lemma {:induction false} FoldCorrect(order: seq<Entry>)
    requires StrictlySorted(order) && AllSmall(order)
    ensures Correct(order, Fold(order))
    ensures Fold(order).buffer == [] <==> order == []
    ensures order == [] ==> Fold(order).size == 0
  {
    if order != [] {
      var before, e := order[..|order| - 1], order[|order| - 1];
      assert order == before + [e];
      FoldCorrect(before);
      var o := Fold(before);
      if o.size + SizeOf(e) >= LIMIT {
        FlushCorrect(before, o);
        PushCorrect(before, Flush(o), e);
      } else {
        PushCorrect(before, o, e);
      }
    }
  }

  /** What the merge of `order` means: its output files are well-formed, strictly increasing in
      (key, id) one after the other, made of input entries, and lose no key's newest entry. */
  predicate MergeOf(order: seq<Entry>, files: seq<seq<Entry>>) {
    && (forall f <- files :: GoodFile(f))
    && StrictlySorted(Flatten(files))
    && (forall x <- Flatten(files) :: x in order)
    && (forall e <- order :: Survives(e, Flatten(files)))
  }

  lemma FinishIsMerge(order: seq<Entry>)
    requires StrictlySorted(order) && AllSmall(order)
    ensures MergeOf(order, Finish(Fold(order)))
  {
    FoldCorrect(order);
    var o := Fold(order);
    if o.buffer == [] {
      assert Flatten(o.files) + [] == Flatten(o.files);
    } else {
      FlushCorrect(order, o);
      assert Flatten(o.files + [o.buffer]) + [] == Flatten(o.files + [o.buffer]);
    }
  }

  /** Consequently the newest entry of every key is in the output. */
  lemma NewestIsKept(order: seq<Entry>, files: seq<seq<Entry>>, e: Entry)
    requires MergeOf(order, files) && e in order
    requires forall x <- order :: x.key == e.key ==> x.id <= e.id
    ensures e in Flatten(files)
  {
    assert Survives(e, Flatten(files));
  }

  // ---------------------------------------------------------------- where the output starts

  // Entries of one key that all fit into one file together.
  predicate OneRun(order: seq<Entry>) {
    order != [] && TotalSize(order) < LIMIT && forall e <- order :: e.key == order[0].key
  }

  /** The last entry of the first key up to which the sizes of its entries stay below the limit. */
  function FirstKept(order: seq<Entry>): Entry
    requires order != []
  {
    var n := |order| - 1;
    if n == 0 || OneRun(order) then order[n] else FirstKept(order[..n])
  }

  lemma ShorterRun(order: seq<Entry>)
    requires OneRun(order) && |order| > 1
    ensures OneRun(order[..|order| - 1])
  {
  }

  // The output starts with x, whatever comes next.
  predicate StartsWith(o: Output, x: Entry) {
    if o.files != [] then o.files[0] != [] && o.files[0][0] == x else |o.buffer| > 1 && o.buffer[0] == x
  }

  lemma FeedKeepsStart(o: Output, x: Entry, e: Entry)
    requires StartsWith(o, x)
    ensures StartsWith(Feed(o, e), x)
  {
  }

  // The first entry that is of another key, or does not fit, leaves the one before where it is.
  lemma FeedEnds(p: Entry, size: nat, e: Entry)
    requires e.key != p.key || size + SizeOf(e) >= LIMIT
    ensures StartsWith(Feed(Output([], [p], size), e), p)
  {
  }

  lemma LongerRun(order: seq<Entry>, p: Entry, e: Entry)
    requires OneRun(order) && p in order && e.key == p.key && TotalSize(order + [e]) < LIMIT
    ensures OneRun(order + [e])
  {
  }

  lemma RunEnds(before: seq<Entry>, p: Entry, e: Entry)
    requires before != [] && before[|before| - 1] == p && OneRun(before) && !OneRun(before + [e])
    ensures e.key != p.key || TotalSize(before + [e]) >= LIMIT
    ensures FirstKept(before + [e]) == p
  {
    if e.key == p.key && TotalSize(before + [e]) < LIMIT {
      LongerRun(before, p, e);
    }
    assert (before + [e])[..|before|] == before;
  }

  lemma OneMoreSize(es: seq<Entry>, e: Entry)
    ensures TotalSize(es + [e]) == TotalSize(es) + SizeOf(e)
  {
    assert (es + [e])[..|es|] == es;
  }

  // The fold of entries that make one run, and of others.
  predicate Starts(order: seq<Entry>)
    requires order != []
  {
    && (OneRun(order) ==> Fold(order) == Output([], [order[|order| - 1]], TotalSize(order)))
    && (!OneRun(order) ==> StartsWith(Fold(order), FirstKept(order)))
  }

  lemma StartsStep(order: seq<Entry>, before: seq<Entry>, e: Entry)
    requires order == before + [e] && before != [] && Starts(before)
    ensures Starts(order)
  {
    var p := before[|before| - 1];
    assert order[..|before|] == before;
    OneMoreSize(before, e);
    if OneRun(order) {
      ShorterRun(order);
      assert order[0].key == p.key;
    } else if OneRun(before) {
      RunEnds(before, p, e);
      FeedEnds(p, TotalSize(before), e);
    } else {
      FeedKeepsStart(Fold(before), FirstKept(before), e);
    }
  }

  lemma OneStarts(order: seq<Entry>)
    requires |order| == 1 && SizeOf(order[0]) < LIMIT
    ensures Starts(order)
  {
    OneMoreSize([], order[0]);
    assert order[..0] == [] && order == [] + [order[0]];
  }

  lemma {:induction false} FoldStarts(order: seq<Entry>)
    requires order != [] && AllSmall(order)
    ensures Starts(order)
  {
    if |order| == 1 {
      OneStarts(order);
    } else {
      var n := |order| - 1;
      FoldStarts(order[..n]);
      StartsStep(order, order[..n], order[n]);
    }
  }

  lemma FinishStarts(o: Output, x: Entry)
    requires StartsWith(o, x) || (o.files == [] && o.buffer == [x])
    ensures var files := Finish(o); files != [] && files[0] != [] && files[0][0] == x
  {
  }

  /** The output of a merge starts with that entry. */
  lemma OutputStarts(order: seq<Entry>)
    requires order != [] && AllSmall(order)
    ensures var files := Finish(Fold(order)); files != [] && files[0] != [] && files[0][0] == FirstKept(order)
  {
    FoldStarts(order);
    FinishStarts(Fold(order), FirstKept(order));
  }
}
