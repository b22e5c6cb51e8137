/** The k-way merge over lazily loaded data blocks (src/table/db.cc:522-689). */
module Merge {
  import opened Lists
  import opened InternalEntry
  import opened Order
  import opened Sorted
  import opened MergeOutput
  import opened MergeRuns
  import opened Allocator

  // An element of the priority queue and of the output buffer: the entry it views, the number of
  // its file, and the pool block the entry's bytes are in.
  datatype Item = Item(entry: Entry, file: nat, block: nat)

  datatype Result<T> = Ok(value: T) | Error

  // An SST file, as its data blocks.
  type Blocks = seq<seq<Entry>>

  predicate ValidFile(f: Blocks) {
    && f != []
    && (forall b <- f :: b != [])
    && IsSorted(Flatten(f))
  }

  function Entries(items: seq<Item>): (r: seq<Entry>)
    ensures |r| == |items| && forall i :: 0 <= i < |items| ==> r[i] == items[i].entry
  {
    seq(|items|, i requires 0 <= i < |items| => items[i].entry)
  }

  function CountBlock(items: seq<Item>, b: nat): nat {
    if items == [] then 0
    else CountBlock(items[..|items| - 1], b) + if items[|items| - 1].block == b then 1 else 0
  }

  function CountFile(items: seq<Item>, f: nat): nat {
    if items == [] then 0
    else CountFile(items[..|items| - 1], f) + if items[|items| - 1].file == f then 1 else 0
  }

  function Without(items: seq<Item>, k: nat): seq<Item>
    requires k < |items|
  {
    items[..k] + items[k + 1..]
  }

  // ---------------------------------------------------------------- counting lemmas

  lemma {:induction false} CountConcat(a: seq<Item>, b: seq<Item>, n: nat)
    ensures CountBlock(a + b, n) == CountBlock(a, n) + CountBlock(b, n)
    ensures CountFile(a + b, n) == CountFile(a, n) + CountFile(b, n)
  {
    if b == [] {
      assert a + b == a;
    } else {
      assert (a + b)[..|a + b| - 1] == a + b[..|b| - 1];
      CountConcat(a, b[..|b| - 1], n);
    }
  }

  lemma CountOne(x: Item, n: nat)
    ensures CountBlock([x], n) == (if x.block == n then 1 else 0)
    ensures CountFile([x], n) == (if x.file == n then 1 else 0)
  {
    assert [x][..0] == [];
  }

  lemma CountWithout(items: seq<Item>, k: nat, n: nat)
    requires k < |items|
    ensures CountBlock(items, n) == CountBlock(Without(items, k), n) + (if items[k].block == n then 1 else 0)
    ensures CountFile(items, n) == CountFile(Without(items, k), n) + (if items[k].file == n then 1 else 0)
  {
    assert items == items[..k] + ([items[k]] + items[k + 1..]);
    CountConcat(items[..k], [items[k]] + items[k + 1..], n);
    CountConcat([items[k]], items[k + 1..], n);
    CountOne(items[k], n);
    CountConcat(items[..k], items[k + 1..], n);
  }

  lemma {:induction false} CountMember(items: seq<Item>, i: nat)
    requires i < |items|
    ensures CountBlock(items, items[i].block) > 0 && CountFile(items, items[i].file) > 0
  {
    CountWithout(items, i, items[i].block);
    CountWithout(items, i, items[i].file);
  }

  lemma {:induction false} CountFileWitness(items: seq<Item>, f: nat) returns (i: nat)
    requires CountFile(items, f) > 0
    ensures i < |items| && items[i].file == f
  {
    var n := |items| - 1;
    if items[n].file == f {
      i := n;
    } else {
      i := CountFileWitness(items[..n], f);
    }
  }

  // ---------------------------------------------------------------- the queue

  /** The position of the element on top of the heap: a smallest one. */
  function TopIndex(queue: seq<Item>): (t: nat)
    requires queue != []
    ensures t < |queue|
  {
    var n := |queue| - 1;
    if n == 0 then 0
    else
      var t := TopIndex(queue[..n]);
      if Less(queue[n].entry, queue[t].entry) then n else t
  }

  lemma {:induction false} TopIsMinimal(queue: seq<Item>)
    requires queue != []
    ensures forall i :: 0 <= i < |queue| ==> LessEq(queue[TopIndex(queue)].entry, queue[i].entry)
  {
    var n := |queue| - 1;
    if n > 0 {
      TopIsMinimal(queue[..n]);
      var t := TopIndex(queue[..n]);
      forall i | 0 <= i < n && Less(queue[n].entry, queue[t].entry)
        ensures LessEq(queue[n].entry, queue[i].entry)
      {
        LessEqTotal(queue[n].entry, queue[t].entry);
        LessEqTransitive(queue[n].entry, queue[t].entry, queue[..n][i].entry);
      }
    }
    LessEqTotal(queue[n].entry, queue[n].entry);
  }

  // ---------------------------------------------------------------- what is still on disk

  // The entries of file f that have not been read into the pool.
  function Unread(files: seq<Blocks>, ptr: seq<nat>, f: nat): seq<Entry>
    requires |ptr| == |files| && f < |files| && ptr[f] <= |files[f]|
  {
    Flatten(files[f][ptr[f]..])
  }

  predicate InRange(files: seq<Blocks>, ptr: seq<nat>) {
    |ptr| == |files| && forall f :: 0 <= f < |files| ==> ptr[f] <= |files[f]|
  }

  // The entries of the files from f on that have not been read.
  function UnreadFrom(files: seq<Blocks>, ptr: seq<nat>, f: nat): seq<Entry>
    requires InRange(files, ptr) && f <= |files|
    decreases |files| - f
  {
    if f == |files| then [] else Unread(files, ptr, f) + UnreadFrom(files, ptr, f + 1)
  }

  function AllEntries(files: seq<Blocks>): seq<Entry> {
    if files == [] then [] else AllEntries(files[..|files| - 1]) + Flatten(files[|files| - 1])
  }

  // Reading a block takes its entries from those that are unread in its file.
  lemma ReadOne(files: seq<Blocks>, ptr: seq<nat>, f: nat)
    requires InRange(files, ptr) && f < |files| && ptr[f] < |files[f]|
    ensures InRange(files, ptr[f := ptr[f] + 1])
    ensures Unread(files, ptr, f) == files[f][ptr[f]] + Unread(files, ptr[f := ptr[f] + 1], f)
  {
    FlattenFirst(files[f][ptr[f]..]);
    assert files[f][ptr[f]..][1..] == files[f][ptr[f] + 1..];
  }

  // Files behind f are not concerned.
  lemma {:induction false} UnreadBehind(files: seq<Blocks>, ptr: seq<nat>, next: seq<nat>, g: nat)
    requires InRange(files, ptr) && InRange(files, next) && g <= |files|
    requires forall h :: g <= h < |files| ==> ptr[h] == next[h]
    ensures UnreadFrom(files, next, g) == UnreadFrom(files, ptr, g)
    decreases |files| - g
  {
    if g < |files| {
      UnreadBehind(files, ptr, next, g + 1);
    }
  }

  lemma {:induction false} ReadBlock(files: seq<Blocks>, ptr: seq<nat>, next: seq<nat>, g: nat, f: nat)
    requires InRange(files, ptr) && g <= f < |files| && ptr[f] < |files[f]| && next == ptr[f := ptr[f] + 1]
    ensures InRange(files, next)
    ensures multiset(UnreadFrom(files, ptr, g)) == multiset(UnreadFrom(files, next, g)) + multiset(files[f][ptr[f]])
    decreases f - g
  {
    if g < f {
      ReadBlock(files, ptr, next, g + 1, f);
      assert Unread(files, next, g) == Unread(files, ptr, g);
      Weigh(Unread(files, ptr, g), UnreadFrom(files, ptr, g + 1), UnreadFrom(files, next, g + 1), files[f][ptr[f]]);
    } else {
      ReadOne(files, ptr, f);
      UnreadBehind(files, ptr, next, f + 1);
      assert (files[f][ptr[f]] + Unread(files, next, f)) + UnreadFrom(files, next, f + 1)
             == files[f][ptr[f]] + UnreadFrom(files, next, f);
    }
  }

  lemma Weigh(a: seq<Entry>, rest: seq<Entry>, rest': seq<Entry>, block: seq<Entry>)
    requires multiset(rest) == multiset(rest') + multiset(block)
    ensures multiset(a + rest) == multiset(a + rest') + multiset(block)
  {
  }

  // ---------------------------------------------------------------- the invariants

  /** Queue, counters and read positions agree: cnt[f] entries of file f are queued, and each is at
      most any entry of f that is still unread. */
  predicate Queued(files: seq<Blocks>, ptr: seq<nat>, queue: seq<Item>, cnt: seq<int>) {
    && InRange(files, ptr) && |cnt| == |files|
    && (forall q <- queue :: q.file < |files|)
    && (forall f :: 0 <= f < |files| ==> cnt[f] == CountFile(queue, f))
    && (forall q <- queue, x <- Unread(files, ptr, q.file) :: LessEq(q.entry, x))
  }

  /** The lazy-load invariant: a file with unread blocks has an entry in the queue. */
  predicate Loaded(files: seq<Blocks>, ptr: seq<nat>, cnt: seq<int>)
    requires InRange(files, ptr) && |cnt| == |files|
  {
    forall f :: 0 <= f < |files| && ptr[f] < |files[f]| ==> cnt[f] > 0
  }

  /** Nothing is lost or invented: popped, queued and unread entries are the input. */
  predicate Conserved(files: seq<Blocks>, ptr: seq<nat>, queue: seq<Item>, popped: seq<Entry>)
    requires InRange(files, ptr)
  {
    multiset(popped) + multiset(Entries(queue)) + multiset(UnreadFrom(files, ptr, 0)) == multiset(AllEntries(files))
  }

  // x is at most everything that has not been popped.
  predicate AtMostRest(files: seq<Blocks>, ptr: seq<nat>, queue: seq<Item>, x: Entry)
    requires InRange(files, ptr)
  {
    && (forall q <- queue :: LessEq(x, q.entry))
    && (forall f, y | 0 <= f < |files| && y in Unread(files, ptr, f) :: LessEq(x, y))
  }

  predicate Ordered(files: seq<Blocks>, ptr: seq<nat>, queue: seq<Item>, popped: seq<Entry>)
    requires InRange(files, ptr)
  {
    IsSorted(popped) && (popped != [] ==> AtMostRest(files, ptr, queue, popped[|popped| - 1]))
  }

  /** The reference counters: each counts the queued and buffered entries in its block, and a block
      that is referenced has not been freed. */
  predicate Refs(blocks: seq<Block>, ref: seq<int>, queue: seq<Item>, buffer: seq<Item>) {
    && |blocks| == |ref|
    && (forall q <- queue + buffer :: q.block < |ref|)
    && (forall b :: 0 <= b < |ref| ==>
          ref[b] == CountBlock(queue, b) + CountBlock(buffer, b) && (ref[b] != 0 ==> blocks[b].Live?))
  }

  /** Reading the bytes an item points to; they must not have been freed. */
  function View(blocks: seq<Block>, item: Item): Entry
    requires item.block < |blocks| && blocks[item.block].Live?
  {
    item.entry
  }

  lemma RefsMakeLive(blocks: seq<Block>, ref: seq<int>, queue: seq<Item>, buffer: seq<Item>)
    requires Refs(blocks, ref, queue, buffer)
    ensures forall q <- queue :: q.block < |blocks| && blocks[q.block].Live?
    ensures forall q <- buffer :: q.block < |blocks| && blocks[q.block].Live?
  {
    forall q <- queue
      ensures q.block < |blocks| && blocks[q.block].Live?
    {
      assert q in queue + buffer;
      var i :| 0 <= i < |queue| && queue[i] == q;
      CountMember(queue, i);
    }
    forall q <- buffer
      ensures q.block < |blocks| && blocks[q.block].Live?
    {
      assert q in queue + buffer;
      var i :| 0 <= i < |buffer| && buffer[i] == q;
      CountMember(buffer, i);
    }
  }

  // ---------------------------------------------------------------- one pop

  // The top of the queue is at most everything that is left, on disk included.
  lemma TopIsLeast(files: seq<Blocks>, ptr: seq<nat>, queue: seq<Item>, cnt: seq<int>)
    requires queue != [] && Queued(files, ptr, queue, cnt) && Loaded(files, ptr, cnt)
    ensures AtMostRest(files, ptr, queue, queue[TopIndex(queue)].entry)
  {
    var top := queue[TopIndex(queue)].entry;
    TopIsMinimal(queue);
    forall f, y | 0 <= f < |files| && y in Unread(files, ptr, f)
      ensures LessEq(top, y)
    {
      assert ptr[f] < |files[f]|;
      var i := CountFileWitness(queue, f);
      LessEqTransitive(top, queue[i].entry, y);
    }
  }

  lemma PopQueued(files: seq<Blocks>, ptr: seq<nat>, queue: seq<Item>, cnt: seq<int>, t: nat)
    requires Queued(files, ptr, queue, cnt) && t < |queue|
    ensures queue[t].file < |files|
    ensures Queued(files, ptr, Without(queue, t), cnt[queue[t].file := cnt[queue[t].file] - 1])
  {
    var f := queue[t].file;
    forall g | 0 <= g < |files|
      ensures cnt[f := cnt[f] - 1][g] == CountFile(Without(queue, t), g)
    {
      CountWithout(queue, t, g);
    }
  }

  lemma PopConserved(files: seq<Blocks>, ptr: seq<nat>, queue: seq<Item>, popped: seq<Entry>, t: nat)
    requires InRange(files, ptr) && Conserved(files, ptr, queue, popped) && t < |queue|
    ensures Conserved(files, ptr, Without(queue, t), popped + [queue[t].entry])
  {
    var es := Entries(queue);
    assert es == es[..t] + [es[t]] + es[t + 1..];
    assert Entries(Without(queue, t)) == es[..t] + es[t + 1..];
  }

  lemma PopOrdered(files: seq<Blocks>, ptr: seq<nat>, queue: seq<Item>, popped: seq<Entry>, t: nat)
    requires InRange(files, ptr) && Ordered(files, ptr, queue, popped) && t < |queue|
    requires AtMostRest(files, ptr, queue, queue[t].entry)
    ensures Ordered(files, ptr, Without(queue, t), popped + [queue[t].entry])
  {
    var e := queue[t].entry;
    forall i | 0 <= i < |popped|
      ensures LessEq(popped[i], e)
    {
      if i < |popped| - 1 {
        LessEqTransitive(popped[i], popped[|popped| - 1], e);
      }
    }
  }

  // ---------------------------------------------------------------- reading the next block

  function Items(block: seq<Entry>, f: nat, id: nat): (r: seq<Item>)
    ensures |r| == |block| && Entries(r) == block
  {
    seq(|block|, i requires 0 <= i < |block| => Item(block[i], f, id))
  }

  lemma {:induction false} CountItems(block: seq<Entry>, f: nat, id: nat, n: nat)
    ensures CountBlock(Items(block, f, id), n) == if n == id then |block| else 0
    ensures CountFile(Items(block, f, id), n) == if n == f then |block| else 0
  {
    if block != [] {
      var k := |block| - 1;
      assert Items(block, f, id)[..k] == Items(block[..k], f, id);
      CountItems(block[..k], f, id, n);
    }
  }

  lemma {:induction false} CountNone(items: seq<Item>, b: nat)
    requires forall q <- items :: q.block < b
    ensures CountBlock(items, b) == 0
  {
    if items != [] {
      assert items[|items| - 1] in items;
      CountNone(items[..|items| - 1], b);
    }
  }

  // In a sorted file, a block comes before the rest.
  lemma BlockBeforeRest(f: Blocks, p: nat)
    requires ValidFile(f) && p < |f|
    ensures forall x <- f[p], y <- Flatten(f[p + 1..]) :: LessEq(x, y)
    ensures Flatten(f[p..]) == f[p] + Flatten(f[p + 1..])
  {
    assert f == f[..p] + f[p..];
    FlattenAppend(f[..p], f[p..]);
    FlattenFirst(f[p..]);
    assert f[p..][1..] == f[p + 1..];
    var head, all := |Flatten(f[..p])|, Flatten(f);
    forall x <- f[p], y <- Flatten(f[p + 1..])
      ensures LessEq(x, y)
    {
      var i :| 0 <= i < |f[p]| && f[p][i] == x;
      var j :| 0 <= j < |Flatten(f[p + 1..])| && Flatten(f[p + 1..])[j] == y;
      assert all[head + i] == x && all[head + |f[p]| + j] == y;
    }
  }

  lemma LoadQueued(files: seq<Blocks>, ptr: seq<nat>, queue: seq<Item>, cnt: seq<int>, f: nat, id: nat)
    requires Queued(files, ptr, queue, cnt) && f < |files| && ptr[f] < |files[f]| && ValidFile(files[f])
    ensures Queued(files, ptr[f := ptr[f] + 1], queue + Items(files[f][ptr[f]], f, id),
                   cnt[f := cnt[f] + |files[f][ptr[f]]|])
  {
    var block, next, items := files[f][ptr[f]], ptr[f := ptr[f] + 1], Items(files[f][ptr[f]], f, id);
    BlockBeforeRest(files[f], ptr[f]);
    forall g | 0 <= g < |files|
      ensures cnt[f := cnt[f] + |block|][g] == CountFile(queue + items, g)
    {
      CountConcat(queue, items, g);
      CountItems(block, f, id, g);
    }
    forall q <- items
      ensures q.file == f && q.entry in block
    {
      var i :| 0 <= i < |items| && items[i] == q;
      assert items[i].entry == block[i];
    }
    assert forall g, y | 0 <= g < |files| && y in Unread(files, next, g) :: y in Unread(files, ptr, g);
  }

  lemma LoadConserved(files: seq<Blocks>, ptr: seq<nat>, queue: seq<Item>, popped: seq<Entry>, f: nat, id: nat)
    requires InRange(files, ptr) && f < |files| && ptr[f] < |files[f]|
    requires Conserved(files, ptr, queue, popped)
    ensures InRange(files, ptr[f := ptr[f] + 1])
    ensures Conserved(files, ptr[f := ptr[f] + 1], queue + Items(files[f][ptr[f]], f, id), popped)
  {
    var block, items := files[f][ptr[f]], Items(files[f][ptr[f]], f, id);
    ReadBlock(files, ptr, ptr[f := ptr[f] + 1], 0, f);
    assert Entries(queue + items) == Entries(queue) + block;
  }

  lemma LoadOrdered(files: seq<Blocks>, ptr: seq<nat>, queue: seq<Item>, popped: seq<Entry>, f: nat, id: nat)
    requires InRange(files, ptr) && f < |files| && ptr[f] < |files[f]| && Ordered(files, ptr, queue, popped)
    ensures InRange(files, ptr[f := ptr[f] + 1])
    ensures Ordered(files, ptr[f := ptr[f] + 1], queue + Items(files[f][ptr[f]], f, id), popped)
  {
    var block, next, items := files[f][ptr[f]], ptr[f := ptr[f] + 1], Items(files[f][ptr[f]], f, id);
    ReadOne(files, ptr, f);
    forall q <- items
      ensures q.entry in Unread(files, ptr, f)
    {
      var i :| 0 <= i < |items| && items[i] == q;
      assert items[i].entry == block[i];
    }
    assert forall g, y | 0 <= g < |files| && y in Unread(files, next, g) :: y in Unread(files, ptr, g);
  }

  // ---------------------------------------------------------------- the counters along the loop

  lemma RefsPush(blocks: seq<Block>, ref: seq<int>, queue: seq<Item>, buffer: seq<Item>, t: nat)
    requires Refs(blocks, ref, queue, buffer) && t < |queue|
    ensures Refs(blocks, ref, Without(queue, t), buffer + [queue[t]])
  {
    assert queue[t] in queue + buffer;
    forall b | 0 <= b < |ref|
      ensures CountBlock(queue, b) + CountBlock(buffer, b)
              == CountBlock(Without(queue, t), b) + CountBlock(buffer + [queue[t]], b)
    {
      CountWithout(queue, t, b);
      CountConcat(buffer, [queue[t]], b);
      CountOne(queue[t], b);
    }
  }

  lemma RefsDrop(blocks: seq<Block>, ref: seq<int>, queue: seq<Item>, a: seq<Item>, x: Item, b: seq<Item>)
    requires Refs(blocks, ref, queue, a + [x] + b)
    ensures x.block < |ref|
    ensures Refs(blocks, ref[x.block := ref[x.block] - 1], queue, a + b)
  {
    assert x in queue + (a + [x] + b);
    forall n | 0 <= n < |ref|
      ensures CountBlock(a + [x] + b, n) == CountBlock(a + b, n) + if n == x.block then 1 else 0
    {
      CountConcat(a + [x], b, n);
      CountConcat(a, [x], n);
      CountConcat(a, b, n);
      CountOne(x, n);
    }
    assert forall q <- queue + (a + b) :: q in queue + (a + [x] + b);
  }

  lemma RefsLoad(blocks: seq<Block>, ref: seq<int>, queue: seq<Item>, buffer: seq<Item>,
                 block: seq<Entry>, f: nat, size: nat)
    requires Refs(blocks, ref, queue, buffer)
    ensures Refs(blocks + [Live(size)], ref + [|block|], queue + Items(block, f, |ref|), buffer)
  {
    var id, items := |ref|, Items(block, f, |ref|);
    forall q <- items
      ensures q.block == id
    {
      var i :| 0 <= i < |items| && items[i] == q;
    }
    forall b | 0 <= b <= id
      ensures CountBlock(queue + items, b) == CountBlock(queue, b) + if b == id then |block| else 0
      ensures b == id ==> CountBlock(queue, b) == CountBlock(buffer, b) == 0
    {
      CountConcat(queue, items, b);
      CountItems(block, f, id, b);
      if b == id {
        assert forall q <- queue :: q in queue + buffer;
        assert forall q <- buffer :: q in queue + buffer;
        CountNone(queue, b);
        CountNone(buffer, b);
      }
    }
  }

  // ---------------------------------------------------------------- reading and writing

  predicate MergePool(pool: MemAllocator)
    reads pool
  {
    pool.kDefaultBlockSize == 0 && pool.kMaxSectorSize == 0
  }

  /** ReadSSTDataBlock: one pool block for the data block, one reference for each of its entries. */
  method LoadBlock(block: seq<Entry>, f: nat, pool: MemAllocator, ghost queue: seq<Item>, ghost buffer: seq<Item>)
    returns (items: seq<Item>)
    requires block != [] && pool.Valid() && MergePool(pool) && Refs(pool.blocks, pool.ref, queue, buffer)
    modifies pool
    ensures pool.Valid() && items == Items(block, f, |old(pool.ref)|) && |pool.ref| == |old(pool.ref)| + 1
    ensures pool.blocks == old(pool.blocks) + [Live(|EncodedAll(block)|)]
    ensures Refs(pool.blocks, pool.ref, queue + items, buffer)
  {
    var size := BlockSize(block);
    RefsLoad(pool.blocks, pool.ref, queue, buffer, block, f, size);
    var region := pool.Allocate(size);
    pool.RefLast(|block| - 1);
    items := Items(block, f, region.block);
  }

  function BlockSize(block: seq<Entry>): (n: nat)
    requires block != []
    ensures n == |EncodedAll(block)| > 0
  {
    SizeIsBytes(block);
    TotalSize(block)
  }

  // Drops one reference for every entry of the buffer.
  method DropRefs(buffer: seq<Item>, pool: MemAllocator, ghost queue: seq<Item>)
    requires pool.Valid() && Refs(pool.blocks, pool.ref, queue, buffer)
    modifies pool`ref
    ensures pool.Valid() && Refs(pool.blocks, pool.ref, queue, [])
  {
    assert buffer[0..] == buffer;
    for i := 0 to |buffer|
      invariant pool.Valid() && Refs(pool.blocks, pool.ref, queue, buffer[i..])
    {
      DropFirst(pool.blocks, pool.ref, queue, buffer[i..]);
      assert buffer[i..][1..] == buffer[i + 1..];
      pool.Unref(buffer[i].block);
    }
  }

  lemma DropFirst(blocks: seq<Block>, ref: seq<int>, queue: seq<Item>, buffer: seq<Item>)
    requires buffer != [] && Refs(blocks, ref, queue, buffer)
    ensures buffer[0].block < |ref|
    ensures Refs(blocks, ref[buffer[0].block := ref[buffer[0].block] - 1], queue, buffer[1..])
  {
    assert buffer == [] + [buffer[0]] + buffer[1..];
    RefsDrop(blocks, ref, queue, [], buffer[0], buffer[1..]);
    assert [] + buffer[1..] == buffer[1..];
  }

  /** WriteMergeSSTFile: drops the buffer's references, writes its entries out, and only then frees
      the blocks nobody refers to. */
  method WriteMergeFile(buffer: seq<Item>, pool: MemAllocator, ghost queue: seq<Item>) returns (file: seq<Entry>)
    requires pool.Valid() && Refs(pool.blocks, pool.ref, queue, buffer)
    modifies pool
    ensures pool.Valid() && file == Entries(buffer)
    ensures Refs(pool.blocks, pool.ref, queue, [])
    ensures forall b :: 0 <= b < |pool.ref| && pool.ref[b] == 0 ==> pool.blocks[b] == Freed
  {
    RefsMakeLive(pool.blocks, pool.ref, queue, buffer);
    DropRefs(buffer, pool, queue);
    file := [];
    for i := 0 to |buffer|
      invariant file == Entries(buffer)[..i]
    {
      file := file + [View(pool.blocks, buffer[i])];
    }
    pool.ReleaseIdleSpace();
  }

  // ---------------------------------------------------------------- the merge loop

  // The value-level state of the loop and what it means.
  predicate Merged(files: seq<Blocks>, ptr: seq<nat>, queue: seq<Item>, cnt: seq<int>, popped: seq<Entry>) {
    && (forall f <- files :: ValidFile(f))
    && Queued(files, ptr, queue, cnt)
    && Loaded(files, ptr, cnt)
    && Conserved(files, ptr, queue, popped)
    && Ordered(files, ptr, queue, popped)
  }

  // The output is the fold of what was popped, or has just been flushed for the entry on top.
  predicate Folded(o: Output, queue: seq<Item>, popped: seq<Entry>) {
    || o == Fold(popped)
    || (o == Flush(Fold(popped)) && queue != []
        && Fold(popped).size + SizeOf(queue[TopIndex(queue)].entry) >= LIMIT)
  }

  // A pop keeps everything but the lazy-load invariant of the file it takes from.
  lemma PopStep(files: seq<Blocks>, ptr: seq<nat>, queue: seq<Item>, cnt: seq<int>, popped: seq<Entry>, t: nat)
    requires queue != [] && Merged(files, ptr, queue, cnt, popped) && t == TopIndex(queue)
    ensures var f, queue', next := queue[t].file, Without(queue, t), popped + [queue[t].entry];
            && f < |files|
            && Queued(files, ptr, queue', cnt[f := cnt[f] - 1])
            && Conserved(files, ptr, queue', next) && Ordered(files, ptr, queue', next)
            && (forall g :: 0 <= g < |files| && g != f && ptr[g] < |files[g]| ==> cnt[g] > 0)
  {
    TopIsLeast(files, ptr, queue, cnt);
    PopQueued(files, ptr, queue, cnt, t);
    PopConserved(files, ptr, queue, popped, t);
    PopOrdered(files, ptr, queue, popped, t);
  }

  // Reading the next block of f restores it.
  lemma LoadStep(files: seq<Blocks>, ptr: seq<nat>, queue: seq<Item>, cnt: seq<int>, popped: seq<Entry>, f: nat,
                 id: nat)
    requires forall f <- files :: ValidFile(f)
    requires Queued(files, ptr, queue, cnt)
    requires Conserved(files, ptr, queue, popped) && Ordered(files, ptr, queue, popped)
    requires f < |files| && ptr[f] < |files[f]|
    requires forall g :: 0 <= g < |files| && g != f && ptr[g] < |files[g]| ==> cnt[g] > 0
    ensures files[f][ptr[f]] != []
    ensures Merged(files, ptr[f := ptr[f] + 1], queue + Items(files[f][ptr[f]], f, id),
                   cnt[f := cnt[f] + |files[f][ptr[f]]|], popped)
  {
    assert files[f][ptr[f]] in files[f];
    LoadQueued(files, ptr, queue, cnt, f, id);
    LoadConserved(files, ptr, queue, popped, f, id);
    LoadOrdered(files, ptr, queue, popped, f, id);
  }

  /** A block is read only when the queue, rest without the popped entry, has none of file f left. */
  predicate ReadsLazily(rest: seq<Item>, ptr: seq<nat>, f: nat, queue': seq<Item>, ptr': seq<nat>) {
    (exists q <- rest :: q.file == f) ==> queue' == rest && ptr' == ptr
  }

  lemma {:induction false} HasFile(items: seq<Item>, q: Item)
    requires q in items
    ensures CountFile(items, q.file) > 0
  {
    var n := |items| - 1;
    if items[n] != q {
      HasFile(items[..n], q);
    }
  }

  /** Pops the top of the queue and, when its file has no other entry queued, reads that file's next
      block. */
  method Advance(files: seq<Blocks>, ptr: seq<nat>, queue: seq<Item>, cnt: seq<int>, pool: MemAllocator,
                 ghost popped: seq<Entry>, ghost buffer: seq<Item>)
    returns (ptr': seq<nat>, queue': seq<Item>, cnt': seq<int>)
    requires queue != [] && Merged(files, ptr, queue, cnt, popped)
    requires pool.Valid() && MergePool(pool)
    requires Refs(pool.blocks, pool.ref, Without(queue, TopIndex(queue)), buffer)
    modifies pool
    ensures pool.Valid()
    ensures Merged(files, ptr', queue', cnt', popped + [queue[TopIndex(queue)].entry])
    ensures Refs(pool.blocks, pool.ref, queue', buffer)
    ensures ReadsLazily(Without(queue, TopIndex(queue)), ptr, queue[TopIndex(queue)].file, queue', ptr')
  {
    var t := TopIndex(queue);
    PopStep(files, ptr, queue, cnt, popped, t);
    var f := queue[t].file;
    ptr', queue', cnt' := ptr, Without(queue, t), cnt[f := cnt[f] - 1];
    if q :| q in queue' && q.file == f {
      HasFile(queue', q);
    }
    if cnt'[f] == 0 && ptr[f] < |files[f]| {
      LoadStep(files, ptr, queue', cnt', popped + [queue[t].entry], f, |pool.ref|);
      var items := LoadBlock(files[f][ptr[f]], f, pool, queue', buffer);
      ptr' := ptr[f := ptr[f] + 1];
      cnt' := cnt'[f := cnt'[f] + |files[f][ptr[f]]|];
      queue' := queue' + items;
    }
  }

  /** Puts the popped entry into the output buffer, in place of an older one of the same key. */
  method Emit(buffer: seq<Item>, queue: seq<Item>, pool: MemAllocator) returns (buffer': seq<Item>)
    requires queue != [] && pool.Valid() && Refs(pool.blocks, pool.ref, queue, buffer)
    modifies pool`ref
    ensures pool.Valid()
    ensures Refs(pool.blocks, pool.ref, Without(queue, TopIndex(queue)), buffer')
    ensures Entries(buffer') == PushBuffer(Entries(buffer), queue[TopIndex(queue)].entry)
  {
    var t, n := TopIndex(queue), |buffer|;
    RefsMakeLive(pool.blocks, pool.ref, queue, buffer);
    EmittedEntries(buffer, queue[t]);
    if n > 0 && View(pool.blocks, buffer[n - 1]).key == View(pool.blocks, queue[t]).key {
      buffer' := Replace(buffer, queue, t, pool);
    } else {
      RefsPush(pool.blocks, pool.ref, queue, buffer, t);
      buffer' := buffer + [queue[t]];
    }
  }

  method Replace(buffer: seq<Item>, queue: seq<Item>, t: nat, pool: MemAllocator) returns (buffer': seq<Item>)
    requires t < |queue| && buffer != [] && pool.Valid() && Refs(pool.blocks, pool.ref, queue, buffer)
    modifies pool`ref
    ensures pool.Valid() && buffer' == buffer[..|buffer| - 1] + [queue[t]]
    ensures Refs(pool.blocks, pool.ref, Without(queue, t), buffer')
  {
    var n := |buffer| - 1;
    ReplaceRefs(pool.blocks, pool.ref, queue, buffer, t);
    pool.Unref(buffer[n].block);
    buffer' := buffer[..n] + [queue[t]];
  }

  lemma ReplaceRefs(blocks: seq<Block>, ref: seq<int>, queue: seq<Item>, buffer: seq<Item>, t: nat)
    requires Refs(blocks, ref, queue, buffer) && t < |queue| && buffer != []
    ensures var n := |buffer| - 1;
            && buffer[n].block < |ref|
            && Refs(blocks, ref[buffer[n].block := ref[buffer[n].block] - 1],
                    Without(queue, t), buffer[..n] + [queue[t]])
  {
    var n := |buffer| - 1;
    var last := buffer[n];
    assert buffer == buffer[..n] + [last] + [];
    RefsDrop(blocks, ref, queue, buffer[..n], last, []);
    assert buffer[..n] + [] == buffer[..n];
    RefsPush(blocks, ref[last.block := ref[last.block] - 1], queue, buffer[..n], t);
  }

  lemma EmittedEntries(buffer: seq<Item>, x: Item)
    ensures var n := |buffer|;
            PushBuffer(Entries(buffer), x.entry)
            == Entries(if n > 0 && buffer[n - 1].entry.key == x.entry.key then buffer[..n - 1] + [x] else buffer + [x])
  {
  }

  lemma FoldNext(popped: seq<Entry>, o: Output, queue: seq<Item>)
    requires queue != [] && Folded(o, queue, popped)
    requires o.size + SizeOf(queue[TopIndex(queue)].entry) < LIMIT
    ensures Fold(popped + [queue[TopIndex(queue)].entry]) == Push(o, queue[TopIndex(queue)].entry)
  {
    var e := queue[TopIndex(queue)].entry;
    assert (popped + [e])[..|popped|] == popped;
  }

  lemma Progress(files: seq<Blocks>, ptr: seq<nat>, queue: seq<Item>, popped: seq<Entry>)
    requires InRange(files, ptr) && Conserved(files, ptr, queue, popped)
    ensures |popped| + |queue| <= |AllEntries(files)|
    ensures forall q <- queue :: q.entry in AllEntries(files)
  {
    assert |multiset(popped)| + |multiset(Entries(queue))| <= |multiset(AllEntries(files))|;
    forall q <- queue
      ensures q.entry in AllEntries(files)
    {
      var i :| 0 <= i < |queue| && queue[i] == q;
      assert Entries(queue)[i] in multiset(Entries(queue));
      assert q.entry in multiset(AllEntries(files));
    }
  }

  // With the queue empty, everything has been popped.
  lemma AllPopped(files: seq<Blocks>, ptr: seq<nat>, cnt: seq<int>, popped: seq<Entry>)
    requires Merged(files, ptr, [], cnt, popped)
    ensures multiset(popped) == multiset(AllEntries(files))
  {
    NothingUnread(files, ptr, cnt, 0);
  }

  lemma {:induction false} NothingUnread(files: seq<Blocks>, ptr: seq<nat>, cnt: seq<int>, f: nat)
    requires Queued(files, ptr, [], cnt) && Loaded(files, ptr, cnt) && f <= |files|
    ensures UnreadFrom(files, ptr, f) == []
    decreases |files| - f
  {
    if f < |files| {
      assert cnt[f] == CountFile([], f) == 0;
      NothingUnread(files, ptr, cnt, f + 1);
    }
  }

  // The loop invariant, on values.
  predicate LoopInv(files: seq<Blocks>, ptr: seq<nat>, queue: seq<Item>, cnt: seq<int>, order: seq<Entry>,
                    newFiles: seq<seq<Entry>>, buffer: seq<Entry>, size: nat) {
    && Merged(files, ptr, queue, cnt, order)
    && Folded(Output(newFiles, buffer, size), queue, order)
    && AllSmall(order) && (buffer == [] ==> size == 0)
  }

  lemma FlushKeeps(files: seq<Blocks>, ptr: seq<nat>, queue: seq<Item>, cnt: seq<int>, order: seq<Entry>,
                   newFiles: seq<seq<Entry>>, buffer: seq<Entry>, size: nat)
    requires LoopInv(files, ptr, queue, cnt, order, newFiles, buffer, size)
    requires queue != [] && buffer != [] && size + SizeOf(queue[TopIndex(queue)].entry) >= LIMIT
    ensures LoopInv(files, ptr, queue, cnt, order, newFiles + [buffer], [], 0)
  {
  }

  lemma TakeFolded(queue: seq<Item>, order: seq<Entry>, o: Output, top: Entry, queue': seq<Item>)
    requires Folded(o, queue, order) && queue != [] && top == queue[TopIndex(queue)].entry
    requires o.size + SizeOf(top) < LIMIT
    ensures Folded(Output(o.files, PushBuffer(o.buffer, top), o.size + SizeOf(top)), queue', order + [top])
  {
    FoldNext(order, o, queue);
  }

  lemma TakeSmall(order: seq<Entry>, top: Entry)
    requires AllSmall(order) && SizeOf(top) < LIMIT
    ensures AllSmall(order + [top])
  {
  }

  lemma TakeKeeps(files: seq<Blocks>, queue: seq<Item>, order: seq<Entry>,
                  newFiles: seq<seq<Entry>>, buffer: seq<Entry>, size: nat,
                  ptr': seq<nat>, queue': seq<Item>, cnt': seq<int>, top: Entry)
    requires Folded(Output(newFiles, buffer, size), queue, order) && AllSmall(order)
    requires queue != [] && top == queue[TopIndex(queue)].entry && size + SizeOf(top) < LIMIT
    requires Merged(files, ptr', queue', cnt', order + [top])
    ensures LoopInv(files, ptr', queue', cnt', order + [top], newFiles, PushBuffer(buffer, top), size + SizeOf(top))
  {
    TakeFolded(queue, order, Output(newFiles, buffer, size), top, queue');
    TakeSmall(order, top);
  }

  lemma Finished(files: seq<Blocks>, ptr: seq<nat>, cnt: seq<int>, order: seq<Entry>,
                 newFiles: seq<seq<Entry>>, buffer: seq<Entry>, size: nat)
    requires LoopInv(files, ptr, [], cnt, order, newFiles, buffer, size)
    ensures AllSmall(AllEntries(files)) && IsSorted(order) && multiset(order) == multiset(AllEntries(files))
    ensures Finish(Fold(order)) == if buffer == [] then newFiles else newFiles + [buffer]
  {
    AllPopped(files, ptr, cnt, order);
    forall e <- AllEntries(files)
      ensures e in order
    {
      assert e in multiset(order);
    }
  }

  // What the turn sees on top of the queue.
  method Peek(files: seq<Blocks>, ghost ptr: seq<nat>, queue: seq<Item>, ghost cnt: seq<int>, pool: MemAllocator,
              ghost order: seq<Entry>, ghost newFiles: seq<seq<Entry>>, ghost buffer: seq<Item>, ghost size: nat)
    returns (top: Entry)
    requires queue != [] && LoopInv(files, ptr, queue, cnt, order, newFiles, Entries(buffer), size)
    requires Refs(pool.blocks, pool.ref, queue, buffer)
    ensures top == queue[TopIndex(queue)].entry && top in AllEntries(files)
    ensures |order| < |AllEntries(files)|
  {
    RefsMakeLive(pool.blocks, pool.ref, queue, buffer);
    Progress(files, ptr, queue, order);
    top := View(pool.blocks, queue[TopIndex(queue)]);
  }

  // The turn that takes the top of the queue.
  method Take(files: seq<Blocks>, ptr: seq<nat>, queue: seq<Item>, cnt: seq<int>, pool: MemAllocator,
              ghost order: seq<Entry>, ghost newFiles: seq<seq<Entry>>, buffer: seq<Item>, ghost size: nat)
    returns (ptr': seq<nat>, queue': seq<Item>, cnt': seq<int>, buffer': seq<Item>)
    requires LoopInv(files, ptr, queue, cnt, order, newFiles, Entries(buffer), size)
    requires queue != [] && size + SizeOf(queue[TopIndex(queue)].entry) < LIMIT
    requires pool.Valid() && MergePool(pool) && Refs(pool.blocks, pool.ref, queue, buffer)
    modifies pool
    ensures pool.Valid() && Refs(pool.blocks, pool.ref, queue', buffer') && buffer' != []
    ensures var top := queue[TopIndex(queue)].entry;
            LoopInv(files, ptr', queue', cnt', order + [top], newFiles, Entries(buffer'), size + SizeOf(top))
  {
    buffer' := Emit(buffer, queue, pool);
    ptr', queue', cnt' := Advance(files, ptr, queue, cnt, pool, order, buffer');
    TakeKeeps(files, queue, order, newFiles, Entries(buffer), size, ptr', queue', cnt', queue[TopIndex(queue)].entry);
  }

  // The turn that closes a file.
  method CloseFile(files: seq<Blocks>, ghost ptr: seq<nat>, queue: seq<Item>, ghost cnt: seq<int>, pool: MemAllocator,
                   ghost order: seq<Entry>, newFiles: seq<seq<Entry>>, buffer: seq<Item>, ghost size: nat)
    returns (newFiles': seq<seq<Entry>>)
    requires LoopInv(files, ptr, queue, cnt, order, newFiles, Entries(buffer), size)
    requires queue != [] && buffer != [] && size + SizeOf(queue[TopIndex(queue)].entry) >= LIMIT
    requires pool.Valid() && Refs(pool.blocks, pool.ref, queue, buffer)
    modifies pool
    ensures pool.Valid() && Refs(pool.blocks, pool.ref, queue, [])
    ensures LoopInv(files, ptr, queue, cnt, order, newFiles', Entries([]), 0)
  {
    FlushKeeps(files, ptr, queue, cnt, order, newFiles, Entries(buffer), size);
    var file := WriteMergeFile(buffer, pool, queue);
    newFiles' := newFiles + [file];
    pool.ReleaseIdleSpace();
  }

  // The file that is still open when the queue is empty.
  method CloseLast(files: seq<Blocks>, ghost ptr: seq<nat>, ghost cnt: seq<int>, pool: MemAllocator,
                   ghost order: seq<Entry>, newFiles: seq<seq<Entry>>, buffer: seq<Item>, ghost size: nat)
    returns (newFiles': seq<seq<Entry>>)
    requires LoopInv(files, ptr, [], cnt, order, newFiles, Entries(buffer), size)
    requires pool.Valid() && Refs(pool.blocks, pool.ref, [], buffer)
    modifies pool
    ensures AllSmall(AllEntries(files)) && IsSorted(order) && multiset(order) == multiset(AllEntries(files))
    ensures newFiles' == Finish(Fold(order))
    ensures buffer != [] ==> forall b :: 0 <= b < |pool.blocks| ==> pool.blocks[b] == Freed
  {
    Finished(files, ptr, cnt, order, newFiles, Entries(buffer), size);
    newFiles' := newFiles;
    if buffer != [] {
      var file := WriteMergeFile(buffer, pool, []);
      newFiles' := newFiles + [file];
    }
  }

  lemma WhatIsWritten(order: seq<Entry>, all: seq<Entry>)
    requires AllSmall(all) && multiset(order) == multiset(all)
    ensures forall e <- all :: |Encoded(e)| < 0x20_0000
    ensures MergedInRuns(order, Finish(Fold(order)))
    ensures forall f <- Finish(Fold(order)) :: |EncodedAll(f)| < 0x20_0000
  {
    forall e <- order
      ensures |Encoded(e)| < 0x20_0000
    {
      assert e in multiset(order);
      assert e in all;
    }
    FilesAreRuns(order);
  }

  /** TCDB::IterMerge. `order` is the order in which the entries left the queue. A flush of an empty
      buffer, which happens when an entry alone reaches the limit, is the one failure. */
  method IterMerge(files: seq<Blocks>, queue0: seq<Item>, cnt0: seq<int>, pool: MemAllocator)
    returns (result: Result<seq<seq<Entry>>>, ghost order: seq<Entry>)
    requires LoopInv(files, seq(|files|, _ => 1), queue0, cnt0, [], [], Entries([]), 0)
    requires pool.Valid() && MergePool(pool) && Refs(pool.blocks, pool.ref, queue0, [])
    modifies pool
    ensures result.Ok? <==> forall e <- AllEntries(files) :: |Encoded(e)| < 0x20_0000
    ensures result.Ok? ==>
              && IsSorted(order) && multiset(order) == multiset(AllEntries(files))
              && result.value == Finish(Fold(order))
    ensures result.Ok? ==> MergedInRuns(order, result.value) && forall f <- result.value :: |EncodedAll(f)| < 0x20_0000
    ensures result.Ok? && queue0 != [] ==> forall b :: 0 <= b < |pool.blocks| ==> pool.blocks[b] == Freed
  {
    var ptr: seq<nat>, queue, cnt := seq(|files|, _ => 1), queue0, cnt0;
    var buffer: seq<Item>, size: nat, newFiles := [], 0, [];
    order := [];
    while queue != []
      invariant LoopInv(files, ptr, queue, cnt, order, newFiles, Entries(buffer), size)
      invariant pool.Valid() && MergePool(pool) && Refs(pool.blocks, pool.ref, queue, buffer)
      invariant queue0 != [] && queue == [] ==> buffer != []
      invariant buffer == [] ==> size == 0
      decreases |AllEntries(files)| - |order|, |buffer|
    {
      var top := Peek(files, ptr, queue, cnt, pool, order, newFiles, buffer, size);
      if size + SizeOf(top) >= LIMIT {
        if buffer == [] {
          return Error, order;
        }
        newFiles := CloseFile(files, ptr, queue, cnt, pool, order, newFiles, buffer, size);
        buffer, size := [], 0;
      } else {
        ptr, queue, cnt, buffer := Take(files, ptr, queue, cnt, pool, order, newFiles, buffer, size);
        size := size + SizeOf(top);
        order := order + [top];
      }
    }
    newFiles := CloseLast(files, ptr, cnt, pool, order, newFiles, buffer, size);
    WhatIsWritten(order, AllEntries(files));
    result := Ok(newFiles);
  }

  // ---------------------------------------------------------------- what the order means

  /** No two entries with the same key and id, as in every store. */
  predicate Unique(es: seq<Entry>) {
    && (forall x <- es, y <- es :: x.key == y.key && x.id == y.id ==> x == y)
    && (forall x <- es :: multiset(es)[x] == 1)
  }

  lemma TwoOccurrences(s: seq<Entry>, i: nat, j: nat)
    requires i < j < |s| && s[i] == s[j]
    ensures multiset(s)[s[i]] >= 2
  {
    assert s == s[..j] + [s[j]] + s[j + 1..];
    assert s[..j][i] in multiset(s[..j]);
  }

  /** Then the order of the merge is strict, and what it writes is a merge of the input. */
  lemma UniqueInputIsMerged(all: seq<Entry>, order: seq<Entry>)
    requires Unique(all) && AllSmall(all)
    requires IsSorted(order) && multiset(order) == multiset(all)
    ensures MergeOf(all, Finish(Fold(order)))
  {
    assert forall x :: x in order <==> x in all by {
      assert forall x :: x in order <==> x in multiset(order);
      assert forall x :: x in all <==> x in multiset(all);
    }
    forall i, j | 0 <= i < j < |order|
      ensures Less(order[i], order[j])
    {
      LessEqMeaning(order[i], order[j]);
      if !Less(order[i], order[j]) {
        TwoOccurrences(order, i, j);
      }
    }
    FinishIsMerge(order);
  }

  // ---------------------------------------------------------------- starting the merge

  // Read positions once the first block of the first i files has been read.
  function Started(n: nat, i: nat): (r: seq<nat>)
    ensures |r| == n && forall f :: 0 <= f < n ==> r[f] == if f < i then 1 else 0
  {
    seq(n, f requires 0 <= f < n => if f < i then 1 else 0)
  }

  lemma {:induction false} AllUnread(files: seq<Blocks>, g: nat)
    requires g <= |files| && InRange(files, Started(|files|, 0))
    ensures multiset(AllEntries(files[..g])) + multiset(UnreadFrom(files, Started(|files|, 0), g))
            == multiset(AllEntries(files))
    decreases |files| - g
  {
    if g == |files| {
      assert files[..g] == files;
    } else {
      AllUnread(files, g + 1);
      assert files[..g + 1][..g] == files[..g];
      assert files[g][0..] == files[g];
    }
  }

  // The first block of each of the first i files has been read.
  predicate Begun(files: seq<Blocks>, i: nat, queue: seq<Item>, cnt: seq<int>) {
    && |cnt| == i <= |files| && (forall k :: 0 <= k < i ==> cnt[k] > 0) && (i > 0 ==> queue != [])
    && Queued(files, Started(|files|, i), queue, cnt + seq(|files| - i, _ => 0))
    && Conserved(files, Started(|files|, i), queue, [])
  }

  lemma NothingRead(files: seq<Blocks>)
    ensures Begun(files, 0, [], [])
  {
    AllUnread(files, 0);
    assert [] + seq(|files| - 0, _ => 0) == seq(|files|, _ => 0);
  }

  // Reading the first block of file i.
  lemma StartStep(files: seq<Blocks>, queue: seq<Item>, cnt: seq<int>, i: nat, id: nat)
    requires (forall f <- files :: ValidFile(f)) && i < |files| && Begun(files, i, queue, cnt)
    ensures files[i] != [] && files[i][0] != []
    ensures Begun(files, i + 1, queue + Items(files[i][0], i, id), cnt + [|files[i][0]|])
  {
    assert ValidFile(files[i]);
    assert files[i][0] in files[i];
    var ptr, all := Started(|files|, i), cnt + seq(|files| - i, _ => 0);
    LoadQueued(files, ptr, queue, all, i, id);
    LoadConserved(files, ptr, queue, [], i, id);
    assert ptr[i := ptr[i] + 1] == Started(|files|, i + 1);
    assert all[i := all[i] + |files[i][0]|] == cnt + [|files[i][0]|] + seq(|files| - i - 1, _ => 0);
  }

  lemma StartMerged(files: seq<Blocks>, queue: seq<Item>, cnt: seq<int>)
    requires (forall f <- files :: ValidFile(f)) && Begun(files, |files|, queue, cnt)
    ensures LoopInv(files, seq(|files|, _ => 1), queue, cnt, [], [], Entries([]), 0)
  {
    assert Started(|files|, |files|) == seq(|files|, _ => 1);
    assert cnt + seq(|files| - |files|, _ => 0) == cnt;
  }

  // Reads the first block of file i.
  method StartFile(files: seq<Blocks>, i: nat, queue: seq<Item>, cnt: seq<int>, pool: MemAllocator)
    returns (queue': seq<Item>, cnt': seq<int>)
    requires (forall f <- files :: ValidFile(f)) && i < |files| && Begun(files, i, queue, cnt)
    requires pool.Valid() && MergePool(pool) && |pool.ref| == i + 1 && Refs(pool.blocks, pool.ref, queue, [])
    modifies pool
    ensures Begun(files, i + 1, queue', cnt')
    ensures pool.Valid() && MergePool(pool) && |pool.ref| == i + 2 && Refs(pool.blocks, pool.ref, queue', [])
  {
    StartStep(files, queue, cnt, i, i + 1);
    var items := LoadBlock(files[i][0], i, pool, queue, []);
    queue' := queue + items;
    cnt' := cnt + [|files[i][0]|];
  }

  // The queue with the first block of every file in it.
  method StartAll(files: seq<Blocks>, pool: MemAllocator) returns (queue: seq<Item>, cnt: seq<int>)
    requires forall f <- files :: ValidFile(f)
    requires pool.Valid() && MergePool(pool) && |pool.ref| == 1 && Refs(pool.blocks, pool.ref, [], [])
    modifies pool
    ensures Begun(files, |files|, queue, cnt)
    ensures pool.Valid() && MergePool(pool) && Refs(pool.blocks, pool.ref, queue, [])
  {
    queue, cnt := [], [];
    NothingRead(files);
    for i := 0 to |files|
      invariant Begun(files, i, queue, cnt)
      invariant pool.Valid() && MergePool(pool) && |pool.ref| == i + 1 && Refs(pool.blocks, pool.ref, queue, [])
    {
      queue, cnt := StartFile(files, i, queue, cnt, pool);
    }
  }

  /** TCDB::MultiwayMerge: on any sorted input files it succeeds exactly when every entry is smaller
      than the file limit; then its output is the fold of all input entries in sorted order, and no
      pool block is left unreleased. */
  method MultiwayMerge(files: seq<Blocks>)
    returns (result: Result<seq<seq<Entry>>>, ghost order: seq<Entry>, pool: MemAllocator)
    requires forall f <- files :: ValidFile(f)
    ensures result.Ok? <==> forall e <- AllEntries(files) :: |Encoded(e)| < 0x20_0000
    ensures result.Ok? ==>
              && IsSorted(order) && multiset(order) == multiset(AllEntries(files))
              && result.value == Finish(Fold(order))
    ensures result.Ok? ==> MergedInRuns(order, result.value) && forall f <- result.value :: |EncodedAll(f)| < 0x20_0000
    ensures result.Ok? && files != [] ==> forall b :: 0 <= b < |pool.blocks| ==> pool.blocks[b] == Freed
  {
    pool := new MemAllocator(0);
    var queue, cnt := StartAll(files, pool);
    StartMerged(files, queue, cnt);
    result, order := IterMerge(files, queue, cnt, pool);
  }
}
