/** Internal entries: a key, a sequence number, an operation and a value in contiguous memory
    (src/coding/internal_entry.cc). */
module InternalEntry {
  import opened Bytes
  import opened Varint

  datatype OpType = Delete | Insert

  datatype Entry = Entry(key: seq<byte>, id: nat, op: OpType, value: seq<byte>)

  const SIZE_LIMIT: nat := 0x2_0000_0000_0000

  /** The entries the format can hold; a deletion stores no value. */
  predicate Encodable(e: Entry) {
    && |e.key| < SIZE_LIMIT && |e.value| < SIZE_LIMIT && e.id < U64
    && (e.op == Delete ==> e.value == [])
  }

  /** The layout: key size, key, id in eight bytes, operation, and for inserts value size and value. */
  function Encoded(e: Entry): (s: seq<byte>)
    ensures |s| >= 10 + |e.key|
  {
    Head(e) + if e.op == Insert then Base128(|e.value|) + e.value else []
  }

  function Head(e: Entry): (s: seq<byte>) {
    Base128(|e.key|) + e.key + LittleEndian(e.id, 8) + [if e.op == Insert then 1 else 0]
  }

  // A varint and the bytes it counts.
  method EncodeCounted(src: seq<byte>, dest: array<byte>, at: nat) returns (end: nat)
    requires |src| < U64 && at + |Base128(|src|)| + |src| <= dest.Length
    modifies dest
    ensures end == at + |Base128(|src|)| + |src|
    ensures dest[..end] == old(dest[..at]) + (Base128(|src|) + src)
    ensures forall i :: end <= i < dest.Length ==> dest[i] == old(dest[i])
  {
    end := EncodeVarint64(|src|, dest, at);
    end := Copy(src, dest, end);
  }

  // Key, id and op.
  method EncodeHead(e: Entry, dest: array<byte>) returns (p: nat)
    requires |e.key| < U64 && |Head(e)| <= dest.Length
    modifies dest
    ensures p == |Head(e)| && dest[..p] == Head(e)
    ensures forall i :: p <= i < dest.Length ==> dest[i] == old(dest[i])
  {
    p := EncodeCounted(e.key, dest, 0);
    p := Copy(LittleEndian(e.id, 8), dest, p);
    p := Copy([if e.op == Insert then 1 else 0], dest, p);
    assert dest[..p] == Head(e);
  }

  /** The memory EncodeInternal fills, written through a moving position. */
  method EncodeInternal(e: Entry, dest: array<byte>)
    requires |e.key| < U64 && |e.value| < U64
    requires |Encoded(e)| <= dest.Length
    modifies dest
    ensures dest[..|Encoded(e)|] == Encoded(e)
    ensures forall i :: |Encoded(e)| <= i < dest.Length ==> dest[i] == old(dest[i])
  {
    var p := EncodeHead(e, dest);
    if e.op == Insert {
      p := EncodeCounted(e.value, dest, p);
    }
  }

  method Copy(src: seq<byte>, dest: array<byte>, at: nat) returns (end: nat)
    requires at + |src| <= dest.Length
    modifies dest
    ensures end == at + |src|
    ensures dest[..end] == old(dest[..at]) + src
    ensures forall i :: end <= i < dest.Length ==> dest[i] == old(dest[i])
  {
    forall i | 0 <= i < |src| {
      dest[at + i] := src[i];
    }
    end := at + |src|;
  }

  // ---------------------------------------------------------------- reading an entry back

  // A varint can be read at the start of s.
  predicate VarintAt(s: seq<byte>) {
    Terminated(s) && Readable(s, 0)
  }

  // Position of the value in memory that starts with an entry.
  function BeforeValueSize(s: seq<byte>): nat
    requires VarintAt(s)
  {
    var size := DecodeVarint64(s);
    |Base128(size)| + size + 9
  }

  /** All bytes the accessors below read are there. */
  predicate HoldsEntry(s: seq<byte>) {
    && VarintAt(s)
    && VarintLength(s) + DecodeVarint64(s) <= |s|
    && BeforeValueSize(s) <= |s|
    && (s[BeforeValueSize(s) - 1] == 1 ==>
          var v := s[BeforeValueSize(s)..];
          VarintAt(v) && VarintLength(v) + DecodeVarint64(v) <= |v|)
  }

  function EntryOpType(s: seq<byte>): OpType
    requires HoldsEntry(s)
  {
    if s[BeforeValueSize(s) - 1] == 1 then Insert else Delete
  }

  function EntryKey(s: seq<byte>): seq<byte>
    requires HoldsEntry(s)
  {
    s[VarintLength(s)..VarintLength(s) + DecodeVarint64(s)]
  }

  // The eight bytes the comparators read behind the key.
  function EntryId(s: seq<byte>): nat
    requires HoldsEntry(s)
  {
    FromLittleEndian(s[BeforeValueSize(s) - 9..BeforeValueSize(s) - 1])
  }

  function EntryValue(s: seq<byte>): seq<byte>
    requires HoldsEntry(s) && EntryOpType(s) == Insert
  {
    var v := s[BeforeValueSize(s)..];
    v[VarintLength(v)..VarintLength(v) + DecodeVarint64(v)]
  }

  function EntryData(s: seq<byte>): (d: seq<byte>)
    requires HoldsEntry(s)
    ensures 0 < |d| && d <= s
  {
    if EntryOpType(s) == Delete then
      s[..BeforeValueSize(s)]
    else
      var v := s[BeforeValueSize(s)..];
      s[..BeforeValueSize(s) + VarintLength(v) + DecodeVarint64(v)]
  }

  /** The entry that memory s starts with. */
  function Decoded(s: seq<byte>): Entry
    requires HoldsEntry(s)
  {
    Entry(EntryKey(s), EntryId(s), EntryOpType(s), if EntryOpType(s) == Insert then EntryValue(s) else [])
  }

  // A counted string reads back, whatever follows.
  lemma CountedRoundTrip(x: seq<byte>, rest: seq<byte>)
    requires |x| < SIZE_LIMIT
    ensures var s := Base128(|x|) + x + rest;
            && VarintAt(s) && DecodeVarint64(s) == |x| && VarintLength(s) == |Base128(|x|)|
            && s[VarintLength(s)..VarintLength(s) + |x|] == x
            && s[VarintLength(s) + |x|..] == rest
  {
    var s := Base128(|x|) + x + rest;
    assert s == Base128(|x|) + (x + rest);
    Base128Terminates(|x|, x + rest);
    EightBytes(|x|);
    VarintRoundTrip(|x|, x + rest);
  }

  // The part of an entry before its value stands at the start of s.
  predicate HeadAt(s: seq<byte>, e: Entry) {
    var n := |Head(e)|;
    && n <= |s| && VarintAt(s) && DecodeVarint64(s) == |e.key| && BeforeValueSize(s) == n
    && VarintLength(s) + |e.key| <= n
    && s[VarintLength(s)..VarintLength(s) + |e.key|] == e.key
    && FromLittleEndian(s[n - 9..n - 1]) == e.id
    && s[n - 1] == (if e.op == Insert then 1 else 0)
  }

  lemma HeadParts(a: seq<byte>, id: seq<byte>, op: byte, rest: seq<byte>)
    requires |id| == 8
    ensures var s, n := a + id + [op] + rest, |a| + 9;
            && s == a + (id + [op] + rest)
            && s[n - 9..n - 1] == id && s[n - 1] == op && s[n..] == rest
  {
  }

  // Key, id and op of an entry, given where its parts are in s.
  lemma HeadReads(s: seq<byte>, e: Entry, tail: seq<byte>)
    requires Encodable(e) && s == Base128(|e.key|) + e.key + tail && |Head(e)| <= |s|
    requires s[|Head(e)| - 9..|Head(e)| - 1] == LittleEndian(e.id, 8)
    requires s[|Head(e)| - 1] == if e.op == Insert then 1 else 0
    ensures HeadAt(s, e)
  {
    CountedRoundTrip(e.key, tail);
    Memory64(e.id);
  }

  lemma HeadRoundTrip(e: Entry, rest: seq<byte>)
    requires Encodable(e)
    ensures HeadAt(Head(e) + rest, e) && (Head(e) + rest)[|Head(e)|..] == rest
  {
    var id, op := LittleEndian(e.id, 8), (if e.op == Insert then 1 else 0) as byte;
    HeadParts(Base128(|e.key|) + e.key, id, op, rest);
    HeadReads(Head(e) + rest, e, id + [op] + rest);
  }

  // The value part of an insert stands at the start of v.
  predicate ValueAt(v: seq<byte>, e: Entry) {
    && VarintAt(v) && DecodeVarint64(v) == |e.value| && VarintLength(v) + |e.value| <= |v|
    && v[VarintLength(v)..VarintLength(v) + |e.value|] == e.value
  }

  lemma Holds(s: seq<byte>, e: Entry)
    requires HeadAt(s, e) && (e.op == Insert ==> ValueAt(s[|Head(e)|..], e))
    ensures HoldsEntry(s)
  {
  }

  lemma ReadsHead(s: seq<byte>, e: Entry)
    requires HeadAt(s, e) && HoldsEntry(s)
    ensures EntryKey(s) == e.key && EntryId(s) == e.id && EntryOpType(s) == e.op
  {
  }

  lemma ReadsValue(s: seq<byte>, e: Entry)
    requires HeadAt(s, e) && HoldsEntry(s) && EntryOpType(s) == e.op
    ensures e.op == Delete ==> EntryData(s) == s[..|Head(e)|]
    ensures e.op == Insert && ValueAt(s[|Head(e)|..], e) ==>
              && EntryValue(s) == e.value
              && EntryData(s) == s[..|Head(e)| + VarintLength(s[|Head(e)|..]) + |e.value|]
  {
  }

  /** An encoded entry reads back exactly, whatever bytes follow it, and EntryData finds its end. */
  lemma EntryRoundTrip(e: Entry, rest: seq<byte>)
    requires |e.key| < 0x2_0000_0000_0000 && |e.value| < 0x2_0000_0000_0000 && e.id < 0x1_0000_0000_0000_0000
    requires e.op == Delete ==> e.value == []
    ensures HoldsEntry(Encoded(e) + rest)
    ensures Decoded(Encoded(e) + rest) == e
    ensures EntryData(Encoded(e) + rest) == Encoded(e)
  {
    var s, n := Encoded(e) + rest, |Head(e)|;
    if e.op == Insert {
      var v := Base128(|e.value|) + e.value + rest;
      assert s == Head(e) + v;
      HeadRoundTrip(e, v);
      CountedRoundTrip(e.value, rest);
    } else {
      assert s == Head(e) + rest;
      HeadRoundTrip(e, rest);
    }
    Holds(s, e);
    ReadsHead(s, e);
    ReadsValue(s, e);
    assert s[..|Encoded(e)|] == Encoded(e);
  }

  // ---------------------------------------------------------------- blocks of entries

  function EncodedAll(es: seq<Entry>): seq<byte> {
    if es == [] then [] else Encoded(es[0]) + EncodedAll(es[1..])
  }

  function Slices(es: seq<Entry>): (r: seq<seq<byte>>)
    ensures |r| == |es|
  {
    if es == [] then [] else [Encoded(es[0])] + Slices(es[1..])
  }

  /** The loop of ReadSSTDataBlock and ReadSSTDataAll that cuts a block into entries: on any
      concatenation of encoded entries it finds exactly those entries. */
  method ParseBlock(content: seq<byte>, ghost es: seq<Entry>) returns (entrySet: seq<seq<byte>>)
    requires forall e <- es :: Encodable(e)
    requires content == EncodedAll(es)
    ensures entrySet == Slices(es)
  {
    entrySet := [];
    var offset := 0;
    ghost var rest := es;
    while offset < |content|
      invariant 0 <= offset <= |content| && content[offset..] == EncodedAll(rest)
      invariant forall e <- rest :: Encodable(e)
      invariant entrySet + Slices(rest) == Slices(es)
      decreases |content| - offset
    {
      var data := CutOne(content[offset..], rest);
      entrySet := entrySet + [data];
      offset := offset + |data|;
      rest := rest[1..];
    }
  }

  method CutOne(s: seq<byte>, ghost es: seq<Entry>) returns (data: seq<byte>)
    requires forall e <- es :: Encodable(e)
    requires es != [] && s == EncodedAll(es)
    ensures data == Encoded(es[0]) && |data| <= |s| && s[|data|..] == EncodedAll(es[1..])
  {
    assert es[0] in es && Encodable(es[0]);
    EntryRoundTrip(es[0], EncodedAll(es[1..]));
    data := EntryData(s);
  }

  lemma {:induction false} SlicesAt(es: seq<Entry>, i: nat)
    requires i < |es|
    ensures Slices(es)[i] == Encoded(es[i])
  {
    if i > 0 {
      SlicesAt(es[1..], i - 1);
    }
  }

  /** Parsing is unique: two lists of entries with the same bytes are the same list. */
  lemma {:induction false} EncodedAllInjective(es: seq<Entry>, fs: seq<Entry>)
    requires forall e <- es :: Encodable(e)
    requires forall e <- fs :: Encodable(e)
    requires EncodedAll(es) == EncodedAll(fs)
    ensures es == fs
  {
    if es != [] && fs != [] {
      assert es[0] in es && fs[0] in fs;
      assert Encodable(es[0]) && Encodable(fs[0]);
      EntryRoundTrip(es[0], EncodedAll(es[1..]));
      EntryRoundTrip(fs[0], EncodedAll(fs[1..]));
      assert EncodedAll(es)[|Encoded(es[0])|..] == EncodedAll(es[1..]);
      assert EncodedAll(fs)[|Encoded(fs[0])|..] == EncodedAll(fs[1..]);
      EncodedAllInjective(es[1..], fs[1..]);
    }
  }

  // ---------------------------------------------------------------- the layout

  lemma Small(n: nat)
    requires n < 0x80
    ensures Base128(n) == [n as bv8]
  {
  }

  lemma {:induction false} Zeros(k: nat)
    ensures LittleEndian(0, k) == seq(k, _ => 0)
  {
    if k > 0 {
      Zeros(k - 1);
    }
  }

  lemma EightOf(n: nat)
    requires n < 0x80
    ensures LittleEndian(n, 8) == [n as bv8] + seq(7, _ => 0)
  {
    Zeros(7);
    LittleEndianFirst(n, 8);
  }

  lemma LittleEndianFirst(n: nat, k: nat)
    requires n < 0x100 && k > 0
    ensures LittleEndian(n, k) == [n as bv8] + LittleEndian(0, k - 1)
  {
    assert n % 0x100 == n && n / 0x100 == 0;
  }

  lemma SmallHead(k: byte, id: nat, op: OpType, value: seq<byte>)
    requires id < 0x80
    ensures Head(Entry([k], id, op, value))
            == [1, k] + ([id as bv8] + seq(7, _ => 0)) + [if op == Insert then 1 else 0]
  {
    Small(1);
    EightOf(id);
  }

  lemma SmallValue(v: byte)
    ensures Base128(|[v]|) + [v] == [1, v]
  {
    Small(1);
  }

  lemma Flat<T>(a: T, b: T, c: T, zeros: seq<T>, d: T, rest: seq<T>)
    ensures [a, b] + ([c] + zeros) + [d] + rest == [a, b, c] + zeros + ([d] + rest)
  {
  }

  /** The bytes of an insertion with one byte of key and of value and a small id, and of such a deletion. */
  lemma Samples(k: byte, id: nat, v: byte)
    requires id < 0x80
    ensures Encoded(Entry([k], id, Insert, [v])) == [1, k, id as bv8] + seq(7, _ => 0) + ([1] + [1, v])
    ensures Encoded(Entry([k], id, Delete, [])) == [1, k, id as bv8] + seq(7, _ => 0) + ([0] + [])
  {
    SmallHead(k, id, Insert, [v]);
    SmallHead(k, id, Delete, []);
    SmallValue(v);
    Flat(1, k, id as byte, seq(7, _ => 0), 1, [1, v]);
    Flat(1, k, id as byte, seq(7, _ => 0), 0, []);
  }

  /** The limit on sizes is sharp: a key of 2^49 bytes or more, below 2^56, does not read back unless its
      first byte is zero. */
  lemma LongKeysAreLost(e: Entry)
    requires SIZE_LIMIT <= |e.key| < 0x100_0000_0000_0000 && e.key[0] != 0
    ensures VarintAt(Encoded(e)) && DecodeVarint64(Encoded(e)) != |e.key|
  {
    var rest := e.key + LittleEndian(e.id, 8) + [if e.op == Insert then 1 else 0]
                + if e.op == Insert then Base128(|e.value|) + e.value else [];
    assert Encoded(e) == Base128(|e.key|) + rest;
    Base128Terminates(|e.key|, rest);
    VarintRoundTrip(|e.key|, rest);
  }
}
