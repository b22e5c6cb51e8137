/** Variable-length integers (src/coding/varint.cc, include/coding/varint.h).

    `Base128` is the format of the Protocol Buffers Encoding specification, section "Base 128
    Varints": seven bits a byte, least significant group first, the top bit set on every byte
    but the last. The unrolled encoder, the unrolled decoder and the two size loops of the
    program are proved against it. */
module Varint {
  import opened Bytes
  import opened VarintGroups

  const U64: nat := 0x1_0000_0000_0000_0000

  /** The specification's encoding. */
  function Base128(x: nat): (s: seq<byte>)
    ensures |s| > 0
  {
    if x < 0x80 then [ToByte(x)] else [ToByte(x % 0x80) | 0x80] + Base128(x / 0x80)
  }

  // ---------------------------------------------------------------- EncodeVarint64

  /** The bytes the ten branches of EncodeVarint64 write. */
  function Unrolled(data: nat): seq<byte>
    requires data < U64
  {
    var d := LittleEndian(data, 8);
    var c := seq(8, k requires 0 <= k < 8 => Middle(d, k));
    if data < 0x80 then [d[0] & 0x7F]
    else if data < 0x4000 then c[..1] + [Last(d, 1)]
    else if data < 0x20_0000 then c[..2] + [Last(d, 2)]
    else if data < 0x1000_0000 then c[..3] + [Last(d, 3)]
    else if data < 0x8_0000_0000 then c[..4] + [Last(d, 4)]
    else if data < 0x400_0000_0000 then c[..5] + [Last(d, 5)]
    else if data < 0x2_0000_0000_0000 then c[..6] + [Last(d, 6)]
    else if data < 0x100_0000_0000_0000 then c[..7] + [Last(d, 7)]
    else if data <= 0x7FFF_FFFF_FFFF_FFFF then c + [d[7] & 0x7F]
    else c + [d[7] | 0x80, 0x01]
  }

  function Top(b: byte, y: nat): seq<byte> {
    if y < 0x80 then [b & 0x7F] else [b | 0x80, 0x01]
  }

  lemma Base128Step(g: nat, rest: seq<byte>)
    requires rest == Base128(g / 0x80)
    ensures Base128(g) == if g < 0x80 then [ToByte(g % 0x80)] else [ToByte(g % 0x80) | 0x80] + rest
  {
  }

  lemma TopIsBase128(y: nat)
    requires y < 0x100
    ensures Top(ToByte(y), y) == Base128(y)
  {
    if y < 0x80 {
      ClearMask(y);
    } else {
      SetMask(y);
      assert Base128(y / 0x80) == [ToByte(1)];
    }
  }

  lemma Thresholds()
    ensures Threshold(1) == 0x4000 && Threshold(2) == 0x20_0000 && Threshold(3) == 0x1000_0000
    ensures Threshold(4) == 0x8_0000_0000 && Threshold(5) == 0x400_0000_0000
    ensures Threshold(6) == 0x2_0000_0000_0000 && Threshold(7) == 0x100_0000_0000_0000
    ensures Threshold(8) == 0x8000_0000_0000_0000 && Pow256(8) == U64 && 0x100 * Pow256(7) == U64
  {
  }

  lemma TopByte(x: nat)
    requires x < U64
    ensures Groups(x, 8) < 0x100 && LittleEndian(x, 8)[7] == ToByte(Groups(x, 8))
  {
    Thresholds();
    LittleEndianAt(x, 8, 7);
    DropBytesBound(x, 7, 0x100);
    assert Groups(x, 8) == DropBytes(x, 7);
  }

  lemma GroupIsNext(x: nat, k: nat, b: byte)
    requires x < U64 && 1 <= k < 8 && x >= Threshold(k) && b == ToByte(Groups(x, k) % 0x80) | 0x80
    ensures Base128(Groups(x, k)) == [b] + Base128(Groups(x, k + 1))
  {
    GroupsBound(x, k);
    GroupsStep(x, k);
    Base128Step(Groups(x, k), Base128(Groups(x, k) / 0x80));
  }

  lemma LastGroup(x: nat, n: nat)
    requires x < U64 && 1 <= n < 8 && x < Threshold(n)
    ensures Base128(Groups(x, n)) == [ToByte(Groups(x, n) % 0x80)]
  {
    GroupsBound(x, n);
  }

  lemma FirstOfPart(c: seq<byte>, k: nat, n: nat, end: seq<byte>)
    requires k < n <= |c|
    ensures c[k..n] + end == [c[k]] + (c[k + 1..n] + end)
  {
  }

  // From byte k on, the branch that ends with byte n (8 stands for the nine- and ten-byte branches).
  lemma {:induction false} BranchIsBase128(x: nat, k: nat, n: nat, c: seq<byte>, end: seq<byte>)
    requires x < U64 && 1 <= k <= n <= 8
    requires forall j :: k <= j < n ==> x >= Threshold(j)
    requires |c| == 8 && forall j :: k <= j < 8 ==> c[j] == ToByte(Groups(x, j) % 0x80) | 0x80
    requires n < 8 ==> x < Threshold(n) && end == [ToByte(Groups(x, n) % 0x80)]
    requires n == 8 ==> end == Base128(Groups(x, 8))
    ensures Base128(Groups(x, k)) == c[k..n] + end
    decreases n - k
  {
    if k < n {
      BranchIsBase128(x, k + 1, n, c, end);
      GroupIsNext(x, k, c[k]);
      FirstOfPart(c, k, n, end);
    } else {
      assert c[k..n] + end == end;
      if n < 8 {
        LastGroup(x, n);
      }
    }
  }

  // The number of the branch that data >= 0x80 takes.
  function Branch(x: nat): (n: nat)
    ensures 1 <= n <= 8 && (n < 8 ==> x < Threshold(n))
    ensures forall j :: 1 <= j < n ==> x >= Threshold(j)
  {
    Thresholds();
    if x < 0x4000 then 1
    else if x < 0x20_0000 then 2
    else if x < 0x1000_0000 then 3
    else if x < 0x8_0000_0000 then 4
    else if x < 0x400_0000_0000 then 5
    else if x < 0x2_0000_0000_0000 then 6
    else if x < 0x100_0000_0000_0000 then 7
    else 8
  }

  lemma FirstByte(x: nat)
    ensures ToByte(x % 0x100) | 0x80 == ToByte(x % 0x80) | 0x80
  {
    assert x % 0x100 % 0x80 == x % 0x80;
    SetMask(x % 0x100);
  }

  // The branches, with the bytes they share named.
  lemma UnrolledByBranch(x: nat, c: seq<byte>)
    requires 0x80 <= x < U64
    requires c == seq(8, k requires 0 <= k < 8 => Middle(LittleEndian(x, 8), k))
    ensures var d, n := LittleEndian(x, 8), Branch(x);
            Unrolled(x) == c[..n] + if n < 8 then [Last(d, n)] else Top(d[7], Groups(x, 8))
  {
    GroupsBound(x, 8);
    Thresholds();
    assert c[..8] == c;
  }

  lemma MiddleBytes(x: nat, c: seq<byte>)
    requires c == seq(8, k requires 0 <= k < 8 => Middle(LittleEndian(x, 8), k))
    ensures c[0] == LittleEndian(x, 8)[0] | 0x80
    ensures forall j :: 1 <= j < 8 ==> c[j] == ToByte(Groups(x, j) % 0x80) | 0x80
  {
    forall j | 1 <= j < 8
      ensures c[j] == ToByte(Groups(x, j) % 0x80) | 0x80
    {
      GroupBytes(x, j);
    }
  }

  lemma EndBytes(x: nat, n: nat)
    requires x < U64 && 1 <= n <= 8
    ensures n < 8 ==> Last(LittleEndian(x, 8), n) == ToByte(Groups(x, n) % 0x80)
    ensures n == 8 ==> Top(LittleEndian(x, 8)[7], Groups(x, 8)) == Base128(Groups(x, 8))
  {
    if n < 8 {
      GroupBytes(x, n);
    } else {
      TopByte(x);
      TopIsBase128(Groups(x, 8));
    }
  }

  lemma Prepend(x: nat, first: byte, rest: seq<byte>)
    requires x >= 0x80 && first == LittleEndian(x, 8)[0] | 0x80 && rest == Base128(Groups(x, 1))
    ensures [first] + rest == Base128(x)
  {
    LittleEndianAt(x, 8, 0);
    FirstByte(x);
    Base128Step(x, rest);
  }

  lemma LongIsBase128(x: nat, n: nat, c: seq<byte>, end: seq<byte>)
    requires 0x80 <= x < U64 && 1 <= n <= 8
    requires forall j :: 1 <= j < n ==> x >= Threshold(j)
    requires |c| == 8 && c[0] == LittleEndian(x, 8)[0] | 0x80
    requires forall j :: 1 <= j < 8 ==> c[j] == ToByte(Groups(x, j) % 0x80) | 0x80
    requires n < 8 ==> x < Threshold(n) && end == [ToByte(Groups(x, n) % 0x80)]
    requires n == 8 ==> end == Base128(Groups(x, 8))
    ensures c[..n] + end == Base128(x)
  {
    BranchIsBase128(x, 1, n, c, end);
    Prepend(x, c[0], c[1..n] + end);
    FirstOff(c, n, end);
  }

  lemma FirstOff<T>(c: seq<T>, n: nat, end: seq<T>)
    requires 1 <= n <= |c|
    ensures c[..n] + end == [c[0]] + (c[1..n] + end)
  {
  }

  /** The ten hand-written branches are the specification's recursion, for every 64-bit value. */
  lemma UnrolledIsBase128(x: nat)
    requires x < U64
    ensures Unrolled(x) == Base128(x)
  {
    if x < 0x80 {
      LittleEndianAt(x, 8, 0);
      ClearMask(x);
    } else {
      var d, n := LittleEndian(x, 8), Branch(x);
      var c := seq(8, k requires 0 <= k < 8 => Middle(d, k));
      UnrolledByBranch(x, c);
      MiddleBytes(x, c);
      EndBytes(x, n);
      LongIsBase128(x, n, c, if n < 8 then [Last(d, n)] else Top(d[7], Groups(x, 8)));
    }
  }

  // ---------------------------------------------------------------- SizeOfVarint

  /** SizeOfVarint(uint64_t): counts groups of seven bits. */
  method SizeOfValue(data: nat) returns (ret: nat)
    requires data < U64
    ensures ret == |Base128(data)|
  {
    if data >= 0x8000_0000_0000_0000 {
      TenBytes(data);
      return 10;
    }
    var rest: nat := data / 0x80;
    ret := 1;
    while rest != 0
      invariant ret + (if rest == 0 then 0 else |Base128(rest)|) == |Base128(data)|
      decreases rest
    {
      ret := ret + 1;
      rest := rest / 0x80;
    }
  }

  /** The number of bytes up to and including the first one without the continuation bit. */
  function VarintLength(s: seq<byte>): (n: nat)
    requires Terminated(s)
    ensures 1 <= n <= |s| && s[n - 1] & 0x80 == 0
    ensures forall i :: 0 <= i < n - 1 ==> s[i] & 0x80 != 0
  {
    if s[0] & 0x80 == 0 then 1 else 1 + VarintLength(s[1..])
  }

  predicate Terminated(s: seq<byte>) {
    exists i :: 0 <= i < |s| && s[i] & 0x80 == 0
  }

  /** SizeOfVarint(const char*): scans for the end of the varint. */
  method SizeOfBytes(data: seq<byte>) returns (ret: nat)
    requires Terminated(data)
    ensures ret == VarintLength(data)
  {
    ret := 1;
    while data[ret - 1] & 0x80 != 0
      invariant 1 <= ret <= |data|
      invariant forall i :: 0 <= i < ret - 1 ==> data[i] & 0x80 != 0
      decreases |data| - ret
    {
      ret := ret + 1;
    }
  }

  lemma TenBytes(x: nat)
    requires 0x8000_0000_0000_0000 <= x < U64
    ensures |Base128(x)| == 10
  {
    var c := seq(8, k requires 0 <= k < 8 => Middle(LittleEndian(x, 8), k));
    UnrolledByBranch(x, c);
    UnrolledIsBase128(x);
    GroupsBound(x, 8);
    Thresholds();
  }

  lemma {:induction false} Base128Terminates(x: nat, rest: seq<byte>)
    ensures Terminated(Base128(x) + rest) && VarintLength(Base128(x) + rest) == |Base128(x)|
  {
    var s := Base128(x) + rest;
    if x < 0x80 {
      ByteRoundTrip(x);
      TopBit(s[0]);
    } else {
      Base128Terminates(x / 0x80, rest);
      assert s[1..] == Base128(x / 0x80) + rest;
      var i :| 0 <= i < |s[1..]| && s[1..][i] & 0x80 == 0;
      assert s[i + 1] & 0x80 == 0;
      assert s[0] & 0x80 != 0;
    }
  }

  // ---------------------------------------------------------------- DecodeVarint64

  // `(*p & 0x7F) >> k`
  function Lower(b: byte, k: nat): byte
    requires k <= 6
  {
    (b & 0x7F) >> k
  }

  // `(*p & (1 << k) - 1) << (8 - k)`: what byte k of the varint adds to byte k - 1 of the value.
  function Upper(b: byte, k: nat): byte
    requires 1 <= k <= 7
  {
    match k
    case 1 => b << 7
    case 2 => (b & 0x03) << 6
    case 3 => (b & 0x07) << 5
    case 4 => (b & 0x0F) << 4
    case 5 => (b & 0x1F) << 3
    case 6 => (b & 0x3F) << 2
    case _ => (b & 0x7F) << 1
  }

  // The bytes DecodeVarint64 reads from byte k on are there. Byte 7 is not tested: byte 8 is read.
  predicate Readable(s: seq<byte>, k: nat)
    requires k <= 7
    decreases |s|, 7 - k
  {
    if k == 7 then |s| > 8 else k < |s| && (s[k] & 0x80 != 0 ==> k + 1 < |s| && Readable(s, k + 1))
  }

  // Bytes k.. of the memory of `ret`, which starts as zeros.
  function DecodedBytes(s: seq<byte>, k: nat): (r: seq<byte>)
    requires k <= 7 && Readable(s, k)
    ensures |r| == 8 - k
    decreases |s|, 7 - k
  {
    if k == 7 then [if s[8] & 0x80 == 0 then s[8] & 0x7F else (s[8] & 0x7F) | 0x80]
    else if s[k] & 0x80 == 0 then [Lower(s[k], k)] + seq(7 - k, _ => 0)
    else [Lower(s[k], k) | Upper(s[k + 1], k + 1)] + DecodedBytes(s, k + 1)
  }

  function DecodeVarint64(s: seq<byte>): nat
    requires Readable(s, 0)
  {
    FromLittleEndian(DecodedBytes(s, 0))
  }

  // Byte number 8, which is read from byte 8 of the varint.
  method DecodeLast(s: seq<byte>, ret: array<byte>)
    requires |s| > 8 && ret.Length == 8
    modifies ret
    ensures ret[7..] == DecodedBytes(s, 7) && forall j :: 0 <= j < 7 ==> ret[j] == old(ret[j])
  {
    ret[7] := s[8] & 0x7F;
    if s[8] & 0x80 != 0 {
      ret[7] := ret[7] | 0x80;
    }
  }

  // Byte number k + 1 of the result, and whether the varint goes on.
  method DecodeByte(s: seq<byte>, ret: array<byte>, k: nat) returns (more: bool)
    requires k <= 6 && Readable(s, k) && ret.Length == 8
    modifies ret
    ensures more <==> s[k] & 0x80 != 0
    ensures ret[k] == if more then Lower(s[k], k) | Upper(s[k + 1], k + 1) else Lower(s[k], k)
    ensures forall j :: 0 <= j < 8 && j != k ==> ret[j] == old(ret[j])
  {
    ret[k] := Lower(s[k], k);
    more := s[k] & 0x80 != 0;
    if more {
      ret[k] := ret[k] | Upper(s[k + 1], k + 1);
    }
  }

  // Byte number k + 1 and those after it, written to the memory of `ret` one by one.
  method DecodeFrom(s: seq<byte>, ret: array<byte>, k: nat)
    requires k <= 7 && Readable(s, k) && ret.Length == 8 && forall j :: k <= j < 8 ==> ret[j] == 0
    modifies ret
    ensures ret[k..] == DecodedBytes(s, k) && forall j :: 0 <= j < k ==> ret[j] == old(ret[j])
    decreases 7 - k
  {
    if k == 7 {
      DecodeLast(s, ret);
      return;
    }
    var more := DecodeByte(s, ret, k);
    if more {
      DecodeFrom(s, ret, k + 1);
    }
    assert ret[k..] == [ret[k]] + ret[k + 1..];
  }

  /** DecodeVarint64, through the memory of its result. */
  method ReadVarint64(s: seq<byte>) returns (x: nat)
    requires Readable(s, 0)
    ensures x == DecodeVarint64(s)
  {
    var ret := new byte[8](_ => 0);
    DecodeFrom(s, ret, 0);
    assert ret[0..] == ret[..];
    x := FromLittleEndian(ret[..]);
  }

  // A byte of the value, cut in two by the encoder, comes back together: its low bits are in byte k
  // of the varint and the others at the start of the next byte.
  lemma FirstTwoMeet(b: byte, c: byte)
    ensures (b | 0x80) & 0x80 != 0
    ensures Lower(b | 0x80, 0) | Upper(Cont(b, c, 1), 1) == b
    ensures Lower(b | 0x80, 0) | Upper(Final(b, c, 1), 1) == b
  {
  }

  lemma ContMeets(a: byte, b: byte, c: byte, k: nat)
    requires 1 <= k <= 6
    ensures Cont(a, b, k) & 0x80 != 0 && Lower(Cont(a, b, k), k) | Upper(Cont(b, c, k + 1), k + 1) == b
  {
    match k
    case 1 =>
    case 2 =>
    case 3 =>
    case 4 =>
    case 5 =>
    case _ =>
  }

  lemma FinalMeets(a: byte, b: byte, c: byte, k: nat)
    requires 1 <= k <= 6
    ensures Lower(Cont(a, b, k), k) | Upper(Final(b, c, k + 1), k + 1) == b
  {
    match k
    case 1 =>
    case 2 =>
    case 3 =>
    case 4 =>
    case 5 =>
    case _ =>
  }

  lemma MiddleDecodes(d: seq<byte>, k: nat, next: byte)
    requires |d| == 8 && k <= 6
    requires next == Middle(d, k + 1) || next == Last(d, k + 1)
    ensures Middle(d, k) & 0x80 != 0
    ensures Lower(Middle(d, k), k) | Upper(next, k + 1) == d[k]
  {
    if k == 0 {
      FirstTwoMeet(d[0], d[1]);
    } else {
      ContMeets(d[k - 1], d[k], d[k + 1], k);
      FinalMeets(d[k - 1], d[k], d[k + 1], k);
    }
  }

  lemma LastDecodes(d: seq<byte>, k: nat)
    requires |d| == 8 && 1 <= k <= 6 && FromByte(d[k]) < Pow2(7 - k)
    ensures Last(d, k) & 0x80 == 0 && Lower(Last(d, k), k) == d[k]
  {
    SmallByte(d[k], k);
    LastDecodesBits(d[k - 1], d[k], k);
  }

  lemma SmallByte(b: byte, k: nat)
    requires 1 <= k <= 7 && FromByte(b) < Pow2(7 - k)
    ensures b & (0x7F >> k) == b
  {
  }

  lemma LastDecodesBits(lo: byte, hi: byte, k: nat)
    requires 1 <= k <= 6 && hi & (0x7F >> k) == hi
    ensures Final(lo, hi, k) & 0x80 == 0 && Lower(Final(lo, hi, k), k) == hi
  {
  }

  // Bytes k.. of the decoder's result, for the encoding with n bytes (n <= 7).
  lemma {:induction false} ShortDecodes(d: seq<byte>, s: seq<byte>, k: nat, n: nat)
    requires |d| == 8 && k < n && 2 <= n <= 7 && |s| >= n
    requires forall j :: k <= j < n - 1 ==> s[j] == Middle(d, j)
    requires s[n - 1] == Last(d, n - 1) && FromByte(d[n - 1]) < Pow2(8 - n)
    requires forall j :: n <= j < 8 ==> d[j] == 0
    ensures Readable(s, k) && DecodedBytes(s, k) == d[k..]
    decreases n - k
  {
    if k == n - 1 {
      LastDecodes(d, k);
      assert d[k..] == [d[k]] + d[n..];
    } else {
      MiddleDecodes(d, k, s[k + 1]);
      ShortDecodes(d, s, k + 1, n);
      assert d[k..] == [d[k]] + d[k + 1..];
    }
  }

  // The encodings with eight bytes or more: byte 8 of what follows always lands in the top byte.
  lemma {:induction false} LongDecodes(d: seq<byte>, s: seq<byte>, k: nat)
    requires |d| == 8 && k <= 7 && |s| >= 9
    requires forall j :: k <= j < 7 ==> Continues(s, j, d[j])
    ensures Readable(s, k) && DecodedBytes(s, k) == d[k..7] + [s[8]]
    decreases |s|, 7 - k
  {
    if k == 7 {
      TopByteDecodes(s);
    } else {
      LongDecodes(d, s, k + 1);
      DecodeStep(s, k, d[k]);
      assert d[k..7] == [d[k]] + d[k + 1..7];
    }
  }

  predicate Continues(s: seq<byte>, k: nat, value: byte)
    requires k <= 6 && k + 1 < |s|
  {
    s[k] & 0x80 != 0 && Lower(s[k], k) | Upper(s[k + 1], k + 1) == value
  }

  lemma DecodeStep(s: seq<byte>, k: nat, value: byte)
    requires k <= 6 && k + 1 < |s| && Continues(s, k, value) && Readable(s, k + 1)
    ensures Readable(s, k) && DecodedBytes(s, k) == [value] + DecodedBytes(s, k + 1)
  {
  }

  lemma TopByteDecodes(s: seq<byte>)
    requires |s| >= 9
    ensures Readable(s, 7) && DecodedBytes(s, 7) == [s[8]]
  {
  }

  lemma HighBytes(x: nat, n: nat)
    requires 1 <= n <= 8 && (if n == 1 then x < 0x80 else x < Threshold(n - 1))
    ensures FromByte(LittleEndian(x, 8)[n - 1]) < Pow2(8 - n)
    ensures forall j :: n <= j < 8 ==> LittleEndian(x, 8)[j] == 0
  {
    var y := DropBytes(x, n - 1);
    DropBytesBound(x, n - 1, Pow2(8 - n));
    ThresholdStep(n);
    assert y < Pow2(8 - n) <= 0x80;
    LittleEndianAt(x, 8, n - 1);
    ByteRoundTrip(y);
    forall j | n <= j < 8
      ensures LittleEndian(x, 8)[j] == 0
    {
      ZeroByte(x, n, j);
    }
  }

  lemma ZeroByte(x: nat, n: nat, j: nat)
    requires 1 <= n <= j < 8 && DropBytes(x, n - 1) < 0x100
    ensures LittleEndian(x, 8)[j] == 0
  {
    LittleEndianAt(x, 8, j);
    NothingAbove(x, n, j);
  }

  lemma ThresholdStep(n: nat)
    requires 1 <= n <= 8
    ensures Pow2(8 - n) * Pow256(n - 1) == if n == 1 then 0x80 else Threshold(n - 1)
  {
    Thresholds();
  }

  lemma {:induction false} NothingAbove(x: nat, n: nat, j: nat)
    requires 1 <= n <= j && DropBytes(x, n - 1) < 0x100
    ensures DropBytes(x, j) == 0
    decreases j
  {
    DropBytesStep(x, j - 1);
    if j > n {
      NothingAbove(x, n, j - 1);
    }
  }

  lemma BranchLength(x: nat)
    requires 0x80 <= x < U64
    ensures var u, d, n := Base128(x), LittleEndian(x, 8), Branch(x);
            && |u| == n + 1 + (if n == 8 && x > 0x7FFF_FFFF_FFFF_FFFF then 1 else 0)
            && (forall j :: 0 <= j < n ==> u[j] == Middle(d, j))
            && (n < 8 ==> u[n] == Last(d, n))
            && (n == 8 ==> u[8] == if x > 0x7FFF_FFFF_FFFF_FFFF then d[7] | 0x80 else d[7] & 0x7F)
  {
    var c := seq(8, k requires 0 <= k < 8 => Middle(LittleEndian(x, 8), k));
    UnrolledIsBase128(x);
    UnrolledByBranch(x, c);
    GroupsBound(x, 8);
    Thresholds();
  }

  lemma OneByteDecodes(x: nat, s: seq<byte>)
    requires x < 0x80 && s != [] && s[0] == ToByte(x)
    ensures Readable(s, 0) && DecodedBytes(s, 0) == LittleEndian(x, 8)
  {
    HighBytes(x, 1);
    LittleEndianAt(x, 8, 0);
    ByteRoundTrip(x);
    TopBit(s[0]);
    LowestByte(s[0]);
    assert DecodedBytes(s, 0) == [Lower(s[0], 0)] + seq(7, _ => 0);
  }

  lemma LowestByte(b: byte)
    requires b & 0x80 == 0
    ensures Lower(b, 0) == b
  {
  }

  lemma AllContinue(d: seq<byte>, s: seq<byte>)
    requires |d| == 8 && |s| >= 9
    requires forall j :: 0 <= j < 7 ==> s[j] == Middle(d, j)
    requires s[7] == Middle(d, 7) || s[7] == Last(d, 7)
    ensures forall j :: 0 <= j < 7 ==> Continues(s, j, d[j])
  {
    forall j | 0 <= j < 7
      ensures Continues(s, j, d[j])
    {
      MiddleDecodes(d, j, s[j + 1]);
    }
  }

  lemma TopByteOf(x: nat)
    requires x < U64
    ensures var b := LittleEndian(x, 8)[7];
            (if x > 0x7FFF_FFFF_FFFF_FFFF then b | 0x80 else b & 0x7F) == b
  {
    TopByte(x);
    GroupsBound(x, 8);
    Thresholds();
    ByteRoundTrip(Groups(x, 8));
    TopBit(LittleEndian(x, 8)[7]);
  }

  // The memory of the decoder's result.
  lemma DecodedMemory(x: nat, s: seq<byte>)
    requires x < U64 && Base128(x) <= s && (|Base128(x)| == 8 ==> |s| > 8)
    ensures Readable(s, 0)
    ensures DecodedBytes(s, 0)
            == if |Base128(x)| == 8 then LittleEndian(x, 8)[..7] + [s[8]] else LittleEndian(x, 8)
  {
    var d, u := LittleEndian(x, 8), Base128(x);
    assert forall i :: 0 <= i < |u| ==> s[i] == u[i];
    assert d[0..] == d && d[0..7] == d[..7];
    if x < 0x80 {
      OneByteDecodes(x, s);
    } else {
      var n := Branch(x);
      BranchLength(x);
      if n < 7 {
        HighBytes(x, n + 1);
        ShortDecodes(d, s, 0, n + 1);
      } else {
        AllContinue(d, s);
        LongDecodes(d, s, 0);
        TopByteOf(x);
        assert d[..7] + [d[7]] == d;
      }
    }
  }

  /** Exactly what DecodeVarint64 returns on an encoding, whatever follows it: the value, except
      that an eight-byte encoding takes the byte after it for its top byte. */
  lemma DecodeAfterEncode(x: nat, rest: seq<byte>)
    requires x < U64
    requires |Base128(x)| == 8 ==> rest != []
    ensures Readable(Base128(x) + rest, 0)
    ensures DecodeVarint64(Base128(x) + rest)
            == if |Base128(x)| == 8 then x + 0x100_0000_0000_0000 * FromByte(rest[0]) else x
  {
    var s := Base128(x) + rest;
    assert Base128(x) <= s;
    DecodedMemory(x, s);
    EightBytes(x);
    if |Base128(x)| == 8 {
      assert s[8] == rest[0];
      ReplaceTopByte(x, rest[0]);
    } else {
      Memory64(x);
    }
  }

  lemma Memory64(x: nat)
    requires x < U64
    ensures FromLittleEndian(LittleEndian(x, 8)) == x
  {
    Thresholds();
    LittleEndianRoundTrip(x, 8);
  }

  lemma ReplaceTopByte(x: nat, b: byte)
    requires x < 0x100_0000_0000_0000
    ensures FromLittleEndian(LittleEndian(x, 8)[..7] + [b]) == x + 0x100_0000_0000_0000 * FromByte(b)
  {
    var d := LittleEndian(x, 8);
    Thresholds();
    HighBytes(x, 8);
    Memory64(x);
    assert d == d[..7] + [0];
    FromLittleEndianAppend(d[..7], 0);
    FromLittleEndianAppend(d[..7], b);
    assert Pow256(7) == 0x100_0000_0000_0000;
  }

  lemma EightBytes(x: nat)
    requires x < U64
    ensures |Base128(x)| == 8 <==> 0x2_0000_0000_0000 <= x < 0x100_0000_0000_0000
  {
    Thresholds();
    if x >= 0x80 {
      BranchLength(x);
    }
  }

  /** DecodeVarint64 is the inverse of EncodeVarint64 exactly when the value does not take eight
      bytes, or the byte that follows the encoding is zero. */
  lemma VarintRoundTrip(x: nat, rest: seq<byte>)
    requires x < U64
    requires |Base128(x)| == 8 ==> rest != []
    ensures Readable(Base128(x) + rest, 0)
    ensures DecodeVarint64(Base128(x) + rest) == x
            <==> x < 0x2_0000_0000_0000 || x >= 0x100_0000_0000_0000 || (rest != [] && rest[0] == 0)
  {
    DecodeAfterEncode(x, rest);
    EightBytes(x);
    if rest != [] {
      ByteIsUnique(rest[0]);
      ByteIsUnique(0);
    }
  }

  /** EncodeVarint64: writes the encoding at dest[at..] and returns the position after it. */
  method EncodeVarint64(data: nat, dest: array<byte>, at: nat) returns (end: nat)
    requires data < U64 && at + |Base128(data)| <= dest.Length
    modifies dest
    ensures end == at + |Base128(data)|
    ensures dest[..end] == old(dest[..at]) + Base128(data)
    ensures forall i :: end <= i < dest.Length ==> dest[i] == old(dest[i])
  {
    UnrolledIsBase128(data);
    var bytes := Unrolled(data);
    forall i | 0 <= i < |bytes| {
      dest[at + i] := bytes[i];
    }
    end := at + |bytes|;
  }
}
