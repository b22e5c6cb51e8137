/** SST files: data blocks, index, filter and footer (src/io/io.cc, include/coding/format.h). */
module SST {
  import opened Bytes
  import opened Lists
  import opened InternalEntry
  import opened Bloom
  import opened Writer

  const BLOCK_SIZE: nat := 4096  // DataFileFormat::kDefaultDataBlkSize

  // Encoded entries.
  type Strings = seq<seq<byte>>

  function Size(s: Strings): nat {
    |Flatten(s)|
  }

  // ---------------------------------------------------------------- data blocks

  /** A block that WriteSSTData closes: its last entry is the one that takes it over 4096 bytes. */
  predicate IsClosed(b: Strings) {
    b != [] && Size(b[..|b| - 1]) <= BLOCK_SIZE < Size(b)
  }

  predicate IsOpen(b: Strings) {
    b != [] && Size(b) <= BLOCK_SIZE
  }

  /** The blocks of a file: consecutive parts of its entries, closed but perhaps for the last. */
  predicate IsPartition(blocks: seq<Strings>, entrySet: Strings) {
    && Flatten(blocks) == entrySet
    && (forall i :: 0 <= i < |blocks| - 1 ==> IsClosed(blocks[i]))
    && (blocks != [] ==> IsClosed(blocks[|blocks| - 1]) || IsOpen(blocks[|blocks| - 1]))
  }

  /** Where the blocks of a file end: each is cut behind the entry that takes it over 4096 bytes. */
  lemma BlocksAreCut(blocks: seq<Strings>, entrySet: Strings, i: nat)
    requires IsPartition(blocks, entrySet) && i < |blocks|
    ensures blocks[i] != [] && |Flatten(blocks[i][..|blocks[i]| - 1])| <= 4096
    ensures i < |blocks| - 1 ==> |Flatten(blocks[i])| > 4096
  {
    var b := blocks[i];
    assert b != [];
    FlattenMore(b[..|b| - 1], b[|b| - 1]);
    assert b[..|b| - 1] + [b[|b| - 1]] == b;
  }

  const U32_MODULUS: nat := 0x1_0000_0000

  // uint32_t arithmetic: what is left of n when it wraps around.
  function U32(n: nat): (r: nat)
    ensures r < U32_MODULUS
  {
    if n < U32_MODULUS then n else U32(n - U32_MODULUS)
  }

  /** It is the remainder modulo 2^32. */
  lemma {:induction false} U32IsRemainder(n: nat)
    ensures U32(n) == n % 0x1_0000_0000
  {
    if n >= U32_MODULUS {
      U32IsRemainder(n - U32_MODULUS);
    }
  }

  lemma {:induction false} U32Sum(a: nat, b: nat)
    ensures U32(U32(a) + b) == U32(a + b)
  {
    if a >= U32_MODULUS {
      U32Sum(a - U32_MODULUS, b);
    }
  }

  // Where block i starts.
  function Start(blocks: seq<Strings>, i: nat): nat
    requires i <= |blocks|
  {
    Size(Flatten(blocks[..i]))
  }

  function Starts(blocks: seq<Strings>): (r: seq<nat>)
    ensures |r| == |blocks|
  {
    seq(|blocks|, i requires 0 <= i < |blocks| => U32(Start(blocks, i)))
  }

  lemma StartsMore(blocks: seq<Strings>, b: Strings)
    ensures Starts(blocks + [b]) == Starts(blocks) + [U32(Size(Flatten(blocks)))]
  {
    forall i | 0 <= i <= |blocks|
      ensures (blocks + [b])[..i] == blocks[..i]
    {
    }
    assert blocks[..|blocks|] == blocks;
  }

  // What WriteSSTData has done: closed blocks of the entries `done`, none of the entries `open`.
  ghost predicate Progress(done: Strings, open: Strings, blocks: seq<Strings>, size: nat, offsets: seq<nat>,
                           offset: nat) {
    && Flatten(blocks) == done && (forall b <- blocks :: IsClosed(b))
    && size == Size(open) <= BLOCK_SIZE
    && offsets == Starts(blocks) && offset == U32(Size(done))
  }

  // A block is written.
  lemma MoreBlocks(done: Strings, block: Strings, blocks: seq<Strings>, offset: nat)
    requires Flatten(blocks) == done && offset == U32(Size(done))
    ensures Flatten(blocks + [block]) == done + block
    ensures Starts(blocks + [block]) == Starts(blocks) + [offset]
    ensures U32(offset + Size(block)) == U32(Size(done + block))
  {
    FlattenMore(blocks, block);
    StartsMore(blocks, block);
    FlattenAppend(done, block);
    U32Sum(Size(done), Size(block));
  }

  lemma CloseBlock(done: Strings, open: Strings, e: seq<byte>, blocks: seq<Strings>, size: nat, offsets: seq<nat>,
                   offset: nat)
    requires Progress(done, open, blocks, size, offsets, offset) && size + |e| > BLOCK_SIZE
    ensures Progress(done + (open + [e]), [], blocks + [open + [e]], 0, offsets + [offset], U32(offset + (size + |e|)))
  {
    FlattenMore(open, e);
    assert (open + [e])[..|open|] == open;
    MoreBlocks(done, open + [e], blocks, offset);
  }

  lemma LastBlock(done: Strings, open: Strings, blocks: seq<Strings>, size: nat, offsets: seq<nat>, offset: nat)
    requires Progress(done, open, blocks, size, offsets, offset) && open != []
    ensures IsPartition(blocks + [open], done + open) && offsets + [offset] == Starts(blocks + [open])
  {
    MoreBlocks(done, open, blocks, offset);
  }

  // The offset past the last block.
  method CountLastBlock(entrySet: Strings, start: nat, offset: nat) returns (dataSize: nat)
    requires start <= |entrySet| && offset == U32(Size(entrySet[..start]))
    ensures dataSize == U32(Size(entrySet))
  {
    dataSize := offset;
    for j := start to |entrySet|
      invariant dataSize == U32(Size(entrySet[..j]))
    {
      assert entrySet[..j + 1] == entrySet[..j] + [entrySet[j]];
      FlattenMore(entrySet[..j], entrySet[j]);
      U32Sum(Size(entrySet[..j]), |entrySet[j]|);
      dataSize := U32(dataSize + |entrySet[j]|);
    }
    assert entrySet[..|entrySet|] == entrySet;
  }

  lemma Extend(entrySet: Strings, start: nat, end: nat)
    requires start <= end <= |entrySet|
    ensures entrySet[..end] == entrySet[..start] + entrySet[start..end]
    ensures Flatten(entrySet[..end]) == Flatten(entrySet[..start]) + Flatten(entrySet[start..end])
    ensures end < |entrySet| ==> entrySet[start..end + 1] == entrySet[start..end] + [entrySet[end]]
  {
    assert entrySet[..end] == entrySet[..start] + entrySet[start..end];
    FlattenAppend(entrySet[..start], entrySet[start..end]);
  }

  lemma NothingWritten(entrySet: Strings)
    ensures Progress(entrySet[..0], entrySet[0..0], [], 0, [], 0) && Flatten(entrySet[..0]) == []
  {
    assert entrySet[..0] == [] && entrySet[0..0] == [];
  }

  lemma KeepOpen(entrySet: Strings, start: nat, i: nat, blocks: seq<Strings>, size: nat, offsets: seq<nat>, offset: nat)
    requires start <= i < |entrySet| && size + |entrySet[i]| <= BLOCK_SIZE
    requires Progress(entrySet[..start], entrySet[start..i], blocks, size, offsets, offset)
    ensures Progress(entrySet[..start], entrySet[start..i + 1], blocks, size + |entrySet[i]|, offsets, offset)
  {
    assert entrySet[start..i + 1] == entrySet[start..i] + [entrySet[i]];
    FlattenMore(entrySet[start..i], entrySet[i]);
  }

  lemma BlockClosed(entrySet: Strings, start: nat, i: nat, size: nat, offsets: seq<nat>, offset: nat,
                    blocks: seq<Strings>)
    requires start <= i < |entrySet| && size + |entrySet[i]| > BLOCK_SIZE
    requires Progress(entrySet[..start], entrySet[start..i], blocks, size, offsets, offset)
    ensures Progress(entrySet[..i + 1], entrySet[i + 1..i + 1], blocks + [entrySet[start..i + 1]], 0,
                     offsets + [offset], U32(offset + (size + |entrySet[i]|)))
  {
    assert entrySet[i + 1..i + 1] == [];
    Extend(entrySet, start, i);
    Extend(entrySet, start, i + 1);
    CloseBlock(entrySet[..start], entrySet[start..i], entrySet[i], blocks, size, offsets, offset);
  }

  // A turn that closes a block.
  method WriteBlock(sw: SequentialWriter, entrySet: Strings, start: nat, i: nat, size: nat,
                    offsets: seq<nat>, offset: nat, blocks: seq<Strings>, ghost file: seq<byte>)
    returns (offsets': seq<nat>, offset': nat, blocks': seq<Strings>)
    requires start <= i < |entrySet| && size + |entrySet[i]| > BLOCK_SIZE
    requires sw.Valid() && sw.pos == 0 && sw.file == file + Flatten(entrySet[..start])
    requires Progress(entrySet[..start], entrySet[start..i], blocks, size, offsets, offset)
    modifies sw`pos, sw`file, sw.buffer
    ensures sw.Valid() && sw.pos == 0 && sw.file == file + Flatten(entrySet[..i + 1])
    ensures Progress(entrySet[..i + 1], entrySet[i + 1..i + 1], blocks', 0, offsets', offset')
  {
    BlockClosed(entrySet, start, i, size, offsets, offset, blocks);
    offsets', blocks' := offsets + [offset], blocks + [entrySet[start..i + 1]];
    offset' := U32(offset + (size + |entrySet[i]|));
    Extend(entrySet, start, i + 1);
    sw.WriteBatch(entrySet, start, i + 1);
  }

  // The open block at the end, if there is one.
  method WriteLastBlock(sw: SequentialWriter, entrySet: Strings, start: nat, size: nat,
                        offsets: seq<nat>, offset: nat, blocks: seq<Strings>, ghost file: seq<byte>)
    returns (offsets': seq<nat>, dataSize: nat, blocks': seq<Strings>)
    requires start <= |entrySet|
    requires sw.Valid() && sw.pos == 0 && sw.file == file + Flatten(entrySet[..start])
    requires Progress(entrySet[..start], entrySet[start..|entrySet|], blocks, size, offsets, offset)
    modifies sw`pos, sw`file, sw.buffer
    ensures sw.Valid() && sw.pos == 0 && sw.file == file + Flatten(entrySet)
    ensures IsPartition(blocks', entrySet) && offsets' == Starts(blocks') && dataSize == U32(Size(entrySet))
  {
    Extend(entrySet, start, |entrySet|);
    assert entrySet[..|entrySet|] == entrySet && entrySet[start..|entrySet|] == entrySet[start..];
    offsets', dataSize, blocks' := offsets, offset, blocks;
    if start != |entrySet| {
      LastBlock(entrySet[..start], entrySet[start..], blocks, size, offsets, offset);
      offsets', blocks' := offsets + [offset], blocks + [entrySet[start..]];
      sw.WriteBatch(entrySet, start, |entrySet|);
      dataSize := CountLastBlock(entrySet, start, offset);
    }
  }

  /** WriteSSTData writes all entries in order and returns where the blocks of their partition start
      and the sum of their sizes, as 32-bit numbers. */
  method WriteSSTData(sw: SequentialWriter, entrySet: Strings)
    returns (offsets: seq<nat>, dataSize: nat, blocks: seq<Strings>)
    requires sw.Valid() && sw.pos == 0
    modifies sw`pos, sw`file, sw.buffer
    ensures sw.Valid() && sw.pos == 0 && sw.file == old(sw.file) + Flatten(entrySet)
    ensures IsPartition(blocks, entrySet) && offsets == Starts(blocks) && dataSize == U32(Size(entrySet))
  {
    var size: nat, offset: nat, i: nat, start: nat := 0, 0, 0, 0;
    offsets, blocks := [], [];
    NothingWritten(entrySet);
    while i < |entrySet|
      invariant start <= i <= |entrySet|
      invariant sw.Valid() && sw.pos == 0 && sw.file == old(sw.file) + Flatten(entrySet[..start])
      invariant Progress(entrySet[..start], entrySet[start..i], blocks, size, offsets, offset)
    {
      if size + |entrySet[i]| > BLOCK_SIZE {
        offsets, offset, blocks := WriteBlock(sw, entrySet, start, i, size, offsets, offset, blocks, old(sw.file));
        start, size := i + 1, 0;
      } else {
        KeepOpen(entrySet, start, i, blocks, size, offsets, offset);
        size := size + |entrySet[i]|;
      }
      i := i + 1;
    }
    offsets, dataSize, blocks := WriteLastBlock(sw, entrySet, start, size, offsets, offset, blocks, old(sw.file));
  }

  // ---------------------------------------------------------------- index, filter and footer

  // uint32_t values in memory.
  function Words(ws: seq<nat>): (s: seq<byte>)
    ensures |s| == 4 * |ws|
  {
    if ws == [] then [] else Words(ws[..|ws| - 1]) + LittleEndian(ws[|ws| - 1], 4)
  }

  function Word(s: seq<byte>, i: nat): nat
    requires 4 * i + 4 <= |s|
  {
    FromLittleEndian(s[4 * i..4 * i + 4])
  }

  lemma {:induction false} WordsRoundTrip(ws: seq<nat>, rest: seq<byte>, i: nat)
    requires i < |ws| && ws[i] < Pow256(4)
    ensures Word(Words(ws) + rest, i) == ws[i]
  {
    var n := |ws| - 1;
    var last := LittleEndian(ws[n], 4);
    if i == n {
      assert (Words(ws) + rest)[4 * i..4 * i + 4] == last;
      LittleEndianRoundTrip(ws[i], 4);
    } else {
      WordsRoundTrip(ws[..n], last + rest, i);
      assert Words(ws) + rest == Words(ws[..n]) + (last + rest);
    }
  }

  datatype Footer = Footer(minKeySize: nat, maxKeyOffset: nat, maxKeySize: nat,
                           dataSize: nat, indexSize: nat, flexibleSize: nat)

  const FOOTER_SIZE: nat := 24

  function FooterBytes(f: Footer): (s: seq<byte>)
    ensures |s| == FOOTER_SIZE
  {
    Words([f.minKeySize, f.maxKeyOffset, f.maxKeySize, f.dataSize, f.indexSize, f.flexibleSize])
  }

  method WriteSSTIndex(sw: SequentialWriter, offsets: seq<nat>)
    requires sw.Valid() && sw.pos == 0
    modifies sw`pos, sw`file, sw.buffer
    ensures sw.Valid() && sw.pos == 0 && sw.file == old(sw.file) + Words([|offsets|] + offsets)
  {
    var indexBlock := LittleEndian(|offsets|, 4);
    ghost var words := [|offsets|] + offsets;
    assert words[..1] == [|offsets|] && [|offsets|][..0] == [];
    for i := 0 to |offsets|
      invariant indexBlock == Words(words[..i + 1])
    {
      assert words[..i + 2][..i + 1] == words[..i + 1];
      indexBlock := indexBlock + LittleEndian(offsets[i], 4);
    }
    assert words[..|offsets| + 1] == words;
    sw.WriteFragment(indexBlock);
  }

  /** The bytes of an SST file. */
  ghost predicate IsFile(file: seq<byte>, entrySet: Strings, blocks: seq<Strings>, filter: seq<byte>, footer: Footer) {
    && entrySet != [] && IsPartition(blocks, entrySet)
    && file == Flatten(entrySet) + Words([|blocks|] + Starts(blocks)) + filter + FooterBytes(footer)
    && footer.minKeySize == |entrySet[0]| && footer.maxKeySize == |entrySet[|entrySet| - 1]|
    && footer.maxKeyOffset + footer.maxKeySize == footer.dataSize == Size(entrySet)
    && footer.indexSize == 4 * (|blocks| + 1) && footer.flexibleSize == |filter|
  }

  // The footer fields are 32 bits wide.
  function Wrapped(f: Footer): Footer {
    Footer(U32(f.minKeySize), U32(f.maxKeyOffset), U32(f.maxKeySize), U32(f.dataSize), U32(f.indexSize),
      U32(f.flexibleSize))
  }

  /** The bytes that WriteSSTFile writes, however many: the true footer wraps around in a file of 4 GB or more. */
  ghost predicate IsWritten(file: seq<byte>, entrySet: Strings, blocks: seq<Strings>, filter: seq<byte>,
                            footer: Footer) {
    && entrySet != [] && IsPartition(blocks, entrySet)
    && file == Flatten(entrySet) + Words([|blocks|] + Starts(blocks)) + filter + FooterBytes(footer)
    && footer == Wrapped(FooterOf(entrySet, Size(entrySet), 4 * (|blocks| + 1), |filter|))
  }

  /** WriteSSTFile: the data blocks, their index, the filter and the footer, in this order. The footer
      says where they are if the file is smaller than 4 GB. */
  method WriteSSTFile(entrySet: Strings, length: nat, seeds: seq<nat>, hash: Hash, ghost es: seq<Entry>)
    returns (ghost file: seq<byte>, ghost blocks: seq<Strings>, filter: seq<byte>, footer: Footer)
    requires entrySet != [] && entrySet == Slices(es) && (forall e <- es :: Encodable(e)) && length > 0
    ensures IsWritten(file, entrySet, blocks, filter, footer)
    ensures |file| < U32_MODULUS ==> IsFile(file, entrySet, blocks, filter, footer)
    ensures |filter| == length && IsFilter(filter, Keys(es), seeds, hash)
  {
    filter := CreateFilter(entrySet, length, seeds, hash, es);
    file, blocks, footer := WriteParts(entrySet, filter);
    if |file| < U32_MODULUS {
      SmallFile(file, entrySet, blocks, filter, footer);
    }
  }

  method WriteParts(entrySet: Strings, filter: seq<byte>)
    returns (ghost file: seq<byte>, ghost blocks: seq<Strings>, footer: Footer)
    requires entrySet != []
    ensures IsWritten(file, entrySet, blocks, filter, footer)
  {
    var offsets, dataSize: nat;
    var sw := new SequentialWriter(4096, []);
    offsets, dataSize, blocks := WriteSSTData(sw, entrySet);
    ghost var data := sw.file;
    assert data == Flatten(entrySet);
    var front, back := |entrySet[0]|, |entrySet[|entrySet| - 1]|;
    footer := Footer(U32(front), MinusU32(dataSize, back), U32(back), dataSize, U32(4 * (|offsets| + 1)),
      U32(|filter|));
    FooterIsWrapped(entrySet, dataSize);
    WriteTail(sw, offsets, filter, FooterBytes(footer), data);
    file := sw.file;
    Written(file, entrySet, blocks, filter, footer);
  }

  // A difference that is stored in a uint32_t.
  function MinusU32(a: nat, b: nat): nat {
    U32(a + (U32_MODULUS - U32(b)))
  }

  lemma {:induction false} U32Shift(x: nat, k: nat)
    ensures U32(x + k * U32_MODULUS) == U32(x)
  {
    if k > 0 {
      U32Shift(x, k - 1);
    }
  }

  lemma {:induction false} U32Rest(n: nat) returns (k: nat)
    ensures n == U32(n) + k * U32_MODULUS
  {
    if n < U32_MODULUS {
      k := 0;
    } else {
      k := U32Rest(n - U32_MODULUS);
      k := k + 1;
    }
  }

  lemma MinusWraps(a: nat, b: nat)
    requires b <= a
    ensures MinusU32(U32(a), b) == U32(a - b)
  {
    U32Sum(a, U32_MODULUS - U32(b));
    var k := U32Rest(b);
    U32Shift(a - b, k + 1);
  }

  lemma FooterIsWrapped(entrySet: Strings, dataSize: nat)
    requires entrySet != [] && dataSize == U32(Size(entrySet))
    ensures var back := |entrySet[|entrySet| - 1]|;
            back <= Size(entrySet) && MinusU32(dataSize, back) == U32(Size(entrySet) - back)
  {
    LastFits(entrySet);
    MinusWraps(Size(entrySet), |entrySet[|entrySet| - 1]|);
  }

  lemma Written(file: seq<byte>, entrySet: Strings, blocks: seq<Strings>, filter: seq<byte>, footer: Footer)
    requires entrySet != [] && IsPartition(blocks, entrySet)
    requires footer == Wrapped(FooterOf(entrySet, Size(entrySet), 4 * (|Starts(blocks)| + 1), |filter|))
    requires file == Flatten(entrySet) + Words([|Starts(blocks)|] + Starts(blocks)) + filter + FooterBytes(footer)
    ensures IsWritten(file, entrySet, blocks, filter, footer)
  {
  }

  lemma SmallFile(file: seq<byte>, entrySet: Strings, blocks: seq<Strings>, filter: seq<byte>, footer: Footer)
    requires IsWritten(file, entrySet, blocks, filter, footer) && |file| < U32_MODULUS
    ensures IsFile(file, entrySet, blocks, filter, footer)
  {
    LastFits(entrySet);
    var f := FooterOf(entrySet, Size(entrySet), 4 * (|blocks| + 1), |filter|);
    assert f.indexSize == |Words([|blocks|] + Starts(blocks))|;
    assert footer == f;
    Assembled(file, entrySet, blocks, filter, footer);
  }

  lemma Assembled(file: seq<byte>, entrySet: Strings, blocks: seq<Strings>, filter: seq<byte>, footer: Footer)
    requires entrySet != [] && IsPartition(blocks, entrySet)
    requires footer == FooterOf(entrySet, Size(entrySet), 4 * (|Starts(blocks)| + 1), |filter|)
    requires file == Flatten(entrySet) + Words([|Starts(blocks)|] + Starts(blocks)) + filter + FooterBytes(footer)
    ensures IsFile(file, entrySet, blocks, filter, footer)
  {
  }

  method WriteTail(sw: SequentialWriter, offsets: seq<nat>, filter: seq<byte>, footer: seq<byte>, ghost data: seq<byte>)
    requires sw.Valid() && sw.pos == 0 && sw.file == data
    modifies sw`pos, sw`file, sw.buffer
    ensures sw.file == data + Words([|offsets|] + offsets) + filter + footer
  {
    WriteSSTIndex(sw, offsets);
    sw.WriteFragment(filter);
    sw.WriteFragment(footer);
  }

  function FooterOf(entrySet: Strings, dataSize: nat, indexSize: nat, flexibleSize: nat): (f: Footer)
    requires entrySet != [] && dataSize == Size(entrySet)
    ensures f.maxKeyOffset + f.maxKeySize == dataSize
  {
    LastFits(entrySet);
    var front, back := |entrySet[0]|, |entrySet[|entrySet| - 1]|;
    Footer(front, dataSize - back, back, dataSize, indexSize, flexibleSize)
  }

  lemma LastFits(entrySet: Strings)
    requires entrySet != []
    ensures |entrySet[|entrySet| - 1]| <= Size(entrySet)
    ensures var last := entrySet[|entrySet| - 1]; Flatten(entrySet)[Size(entrySet) - |last|..] == last
    ensures entrySet[0] <= Flatten(entrySet)
  {
    FlattenFirst(entrySet);
  }

  // ---------------------------------------------------------------- reading

  lemma FourParts<T>(a: seq<T>, b: seq<T>, c: seq<T>, d: seq<T>)
    ensures var s := a + b + c + d;
            && s[..|a|] == a && s[|a|..|a| + |b|] == b
            && s[|a| + |b|..|a| + |b| + |c|] == c && s[|s| - |d|..] == d
  {
  }

  // Where the parts of a file are.
  lemma FileParts(file: seq<byte>, entrySet: Strings, blocks: seq<Strings>, filter: seq<byte>, f: Footer)
    requires IsFile(file, entrySet, blocks, filter, f)
    ensures |file| == f.dataSize + f.indexSize + f.flexibleSize + FOOTER_SIZE
    ensures f.minKeySize <= f.dataSize && f.maxKeySize <= f.dataSize && f.maxKeyOffset <= f.dataSize
    ensures file[..f.dataSize] == Flatten(entrySet)
    ensures file[f.dataSize..f.dataSize + f.indexSize] == Words([|blocks|] + Starts(blocks))
    ensures file[f.dataSize + f.indexSize..f.dataSize + f.indexSize + f.flexibleSize] == filter
    ensures file[|file| - FOOTER_SIZE..] == FooterBytes(f)
  {
    LastFits(entrySet);
    FourParts(Flatten(entrySet), Words([|blocks|] + Starts(blocks)), filter, FooterBytes(f));
  }

  method ReadSSTFooter(file: seq<byte>, ghost entrySet: Strings, ghost blocks: seq<Strings>, ghost filter: seq<byte>,
                       ghost footer0: Footer)
    returns (footer: Footer, minKey: seq<byte>, maxKey: seq<byte>)
    requires IsFile(file, entrySet, blocks, filter, footer0) && |file| < U32_MODULUS
    ensures footer == footer0 && minKey == entrySet[0] && maxKey == entrySet[|entrySet| - 1]
  {
    var content := file[|file| - FOOTER_SIZE..];
    FileParts(file, entrySet, blocks, filter, footer0);
    FooterRoundTrip(content, footer0);
    footer := Footer(Word(content, 0), Word(content, 1), Word(content, 2),
                     Word(content, 3), Word(content, 4), Word(content, 5));
    LastFits(entrySet);
    minKey := file[..footer.minKeySize];
    maxKey := file[footer.maxKeyOffset..footer.maxKeyOffset + footer.maxKeySize];
    assert minKey == file[..footer.dataSize][..footer.minKeySize];
    assert maxKey == file[..footer.dataSize][footer.maxKeyOffset..];
  }

  lemma FooterRoundTrip(content: seq<byte>, f: Footer)
    requires content == FooterBytes(f)
    requires f.minKeySize < U32_MODULUS && f.maxKeyOffset < U32_MODULUS && f.maxKeySize < U32_MODULUS
    requires f.dataSize < U32_MODULUS && f.indexSize < U32_MODULUS && f.flexibleSize < U32_MODULUS
    ensures f == Footer(Word(content, 0), Word(content, 1), Word(content, 2),
                        Word(content, 3), Word(content, 4), Word(content, 5))
  {
    var ws := [f.minKeySize, f.maxKeyOffset, f.maxKeySize, f.dataSize, f.indexSize, f.flexibleSize];
    assert content + [] == content;
    forall i: nat | i < 6
      ensures Word(content, i) == ws[i]
    {
      WordsRoundTrip(ws, [], i);
    }
  }

  method ReadSSTFlexible(file: seq<byte>, footer: Footer, ghost entrySet: Strings, ghost blocks: seq<Strings>,
                         ghost filter: seq<byte>)
    returns (content: seq<byte>)
    requires IsFile(file, entrySet, blocks, filter, footer)
    ensures content == filter
  {
    FileParts(file, entrySet, blocks, filter, footer);
    content := file[footer.dataSize + footer.indexSize..footer.dataSize + footer.indexSize + footer.flexibleSize];
  }

  method ReadSSTIndex(file: seq<byte>, footer: Footer, ghost entrySet: Strings, ghost blocks: seq<Strings>,
                      ghost filter: seq<byte>)
    returns (offsets: seq<nat>)
    requires IsFile(file, entrySet, blocks, filter, footer) && |file| < U32_MODULUS
    ensures offsets == Starts(blocks)
  {
    FileParts(file, entrySet, blocks, filter, footer);
    offsets := ParseIndex(file[footer.dataSize..footer.dataSize + footer.indexSize], Starts(blocks));
  }

  method ParseIndex(content: seq<byte>, ghost starts: seq<nat>) returns (offsets: seq<nat>)
    requires content == Words([|starts|] + starts) && |content| < U32_MODULUS
    requires forall i :: 0 <= i < |starts| ==> starts[i] < U32_MODULUS
    ensures offsets == starts
  {
    ghost var words := [|starts|] + starts;
    assert content + [] == content;
    WordsRoundTrip(words, [], 0);
    var count := Word(content, 0);
    offsets := [];
    for i := 0 to count
      invariant offsets == starts[..i]
    {
      WordsRoundTrip(words, [], i + 1);
      offsets := offsets + [Word(content, i + 1)];
    }
  }

  // ---------------------------------------------------------------- data blocks read back

  // Start offsets, with the data size pushed behind them as the readers do.
  function Bounds(blocks: seq<Strings>, dataSize: nat): (r: seq<nat>)
    ensures |r| == |blocks| + 1
  {
    Starts(blocks) + [dataSize]
  }

  lemma StartIs(blocks: seq<Strings>, entrySet: Strings, i: nat)
    requires Flatten(blocks) == entrySet && Size(entrySet) < U32_MODULUS && i <= |blocks|
    ensures Bounds(blocks, Size(entrySet))[i] == Start(blocks, i) <= Size(entrySet)
  {
    assert blocks == blocks[..i] + blocks[i..];
    FlattenAppend(blocks[..i], blocks[i..]);
    FlattenAppend(Flatten(blocks[..i]), Flatten(blocks[i..]));
    if i == |blocks| {
      assert blocks[..i] == blocks;
    }
  }

  lemma FlattenMiddle(p: Strings, q: Strings, r: Strings)
    ensures Size(p + q) == Size(p) + Size(q)
    ensures Size(p) + Size(q) <= Size(p + q + r) && Flatten(p + q + r)[Size(p)..Size(p) + Size(q)] == Flatten(q)
  {
    FlattenAppend(p + q, r);
    FlattenAppend(p, q);
  }

  /** Block i of the partition is what is between bounds i and i + 1. */
  lemma BlockAt(blocks: seq<Strings>, entrySet: Strings, i: nat)
    requires Flatten(blocks) == entrySet && Size(entrySet) < U32_MODULUS && i < |blocks|
    ensures var b := Bounds(blocks, Size(entrySet));
            b[i] <= b[i + 1] <= Size(entrySet) && Flatten(entrySet)[b[i]..b[i + 1]] == Flatten(blocks[i])
  {
    StartIs(blocks, entrySet, i);
    StartIs(blocks, entrySet, i + 1);
    FlattenAround(blocks, i);
    FlattenMiddle(Flatten(blocks[..i]), blocks[i], Flatten(blocks[i + 1..]));
  }

  // The entries of block i, when all blocks together have the entries es.
  lemma SplitEntries(es: seq<Entry>, blocks: seq<Strings>, i: nat)
    requires Flatten(blocks) == Slices(es) && i < |blocks|
    ensures Slices(SplitLike(es, blocks)[i]) == blocks[i]
  {
    var at := |Flatten(blocks[..i])|;
    SplitLikeAt(es, blocks, i);
    FlattenPart(blocks, i);
    SlicesOfPart(es, at, at + |blocks[i]|);
  }

  lemma SlicesOfPart(es: seq<Entry>, a: nat, b: nat)
    requires a <= b <= |es|
    ensures Slices(es)[a..b] == Slices(es[a..b])
  {
    forall i | 0 <= i < b - a
      ensures Slices(es)[a..b][i] == Slices(es[a..b])[i]
    {
      SlicesAt(es, a + i);
      SlicesAt(es[a..b], i);
    }
  }

  lemma {:induction false} FlattenSlices(es: seq<Entry>)
    ensures Flatten(Slices(es)) == EncodedAll(es)
  {
    if es != [] {
      FlattenFirst(Slices(es));
      FlattenSlices(es[1..]);
    }
  }

  // Bytes between bounds i and i + 1 that hold exactly these entries.
  predicate ReadsBlock(file: seq<byte>, bounds: seq<nat>, i: nat, part: seq<Entry>) {
    && i + 1 < |bounds| && bounds[i] <= bounds[i + 1] <= |file|
    && file[bounds[i]..bounds[i + 1]] == EncodedAll(part)
  }

  /** The data of a file read back: what is between two bounds of the index is a non-empty block of
      whole entries, and the blocks in order are all entries that were written. */
  lemma DataRoundTrip(file: seq<byte>, es: seq<Entry>, blocks: seq<Strings>, filter: seq<byte>, footer: Footer)
    requires IsFile(file, Slices(es), blocks, filter, footer) && |file| < U32_MODULUS
    ensures Flatten(SplitLike(es, blocks)) == es
    ensures forall i :: 0 <= i < |blocks| ==>
              && SplitLike(es, blocks)[i] != []
              && ReadsBlock(file, Bounds(blocks, footer.dataSize), i, SplitLike(es, blocks)[i])
  {
    SplitLikeFits(es, blocks);
    FileParts(file, Slices(es), blocks, filter, footer);
    forall i | 0 <= i < |blocks|
      ensures SplitLike(es, blocks)[i] != []
      ensures ReadsBlock(file, Bounds(blocks, footer.dataSize), i, SplitLike(es, blocks)[i])
    {
      SplitEntries(es, blocks, i);
      BlockReadsBack(file, Slices(es), blocks, i, SplitLike(es, blocks)[i]);
    }
  }

  lemma BlockReadsBack(file: seq<byte>, entrySet: Strings, blocks: seq<Strings>, i: nat, part: seq<Entry>)
    requires Flatten(blocks) == entrySet && Size(entrySet) <= |file| < U32_MODULUS
    requires file[..Size(entrySet)] == Flatten(entrySet)
    requires i < |blocks| && blocks[i] == Slices(part)
    ensures ReadsBlock(file, Bounds(blocks, Size(entrySet)), i, part)
  {
    BlockAt(blocks, entrySet, i);
    FlattenSlices(part);
    var bounds := Bounds(blocks, Size(entrySet));
    assert file[bounds[i]..bounds[i + 1]] == file[..Size(entrySet)][bounds[i]..bounds[i + 1]];
  }

  method ReadSSTDataBlock(file: seq<byte>, size: nat, offset: nat, ghost part: seq<Entry>) returns (entrySet: Strings)
    requires offset + size <= |file| && file[offset..offset + size] == EncodedAll(part)
    requires forall e <- part :: Encodable(e)
    ensures entrySet == Slices(part)
  {
    entrySet := ParseBlock(file[offset..offset + size], part);
  }
}
