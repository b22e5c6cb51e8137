/** The bytes of EncodeVarint64's branches, as groups of seven bits of the value: each byte is put
    together from the high bits of one byte of memory and the low bits of the next. */
module VarintGroups {
  import opened Arithmetic
  import opened Bytes

  // `*p++ >> (8 - k) & ((1 << k) - 1)`: the k high bits of the byte that is being left.
  function High(b: byte, k: nat): byte
    requires 1 <= k <= 7
  {
    match k
    case 1 => (b >> 7) & 0x01
    case 2 => (b >> 6) & 0x03
    case 3 => (b >> 5) & 0x07
    case 4 => (b >> 4) & 0x0F
    case 5 => (b >> 3) & 0x1F
    case 6 => (b >> 2) & 0x3F
    case _ => (b >> 1) & 0x7F
  }

  // `High | (*p << k) | 0x80`, read left to right: a byte with the continuation bit.
  function Cont(lo: byte, hi: byte, k: nat): byte
    requires 1 <= k <= 7
  {
    High(lo, k) | (hi << k) | 0x80
  }

  // `High | (*p << k) & 0x7F`: the last byte.
  function Final(lo: byte, hi: byte, k: nat): byte
    requires 1 <= k <= 7
  {
    High(lo, k) | ((hi << k) & 0x7F)
  }

  // Byte k of a branch that goes on after it; d is the memory of `data`.
  function Middle(d: seq<byte>, k: nat): byte
    requires |d| == 8 && k <= 7
  {
    if k == 0 then d[0] | 0x80 else Cont(d[k - 1], d[k], k)
  }

  // Byte k of a branch that ends with it.
  function Last(d: seq<byte>, k: nat): byte
    requires |d| == 8 && 1 <= k <= 7
  {
    Final(d[k - 1], d[k], k)
  }

  function Pow2(k: nat): (p: nat)
    requires k <= 7
    ensures p > 0
  {
    match k
    case 0 => 1
    case 1 => 2
    case 2 => 4
    case 3 => 8
    case 4 => 16
    case 5 => 32
    case 6 => 64
    case _ => 128
  }

  lemma HighValue(b: byte, k: nat)
    requires 1 <= k <= 7
    ensures FromByte(High(b, k)) == FromByte(b) / Pow2(8 - k)
  {
    HighValues(b);
  }
  lemma HighValues(b: byte)
    ensures FromByte((b >> 7) & 0x01) == FromByte(b) / 128 && FromByte((b >> 6) & 0x03) == FromByte(b) / 64
    ensures FromByte((b >> 5) & 0x07) == FromByte(b) / 32 && FromByte((b >> 4) & 0x0F) == FromByte(b) / 16
    ensures FromByte((b >> 3) & 0x1F) == FromByte(b) / 8 && FromByte((b >> 2) & 0x3F) == FromByte(b) / 4
    ensures FromByte((b >> 1) & 0x7F) == FromByte(b) / 2
  {
  }

  lemma LowValue(b: byte, k: nat)
    requires 1 <= k <= 7
    ensures FromByte((b << k) & 0x7F) == FromByte(b) % Pow2(7 - k) * Pow2(k)
  {
    match k
    case 1 => Low1(b);
    case 2 => Low2(b);
    case 3 => Low3(b);
    case 4 => Low4(b);
    case 5 => Low5(b);
    case 6 => Low6(b);
    case _ => assert (b << 7) & 0x7F == 0;
  }
  lemma Low1(b: byte) ensures FromByte((b << 1) & 0x7F) == FromByte(b) % 64 * 2 {}
  lemma Low2(b: byte) ensures FromByte((b << 2) & 0x7F) == FromByte(b) % 32 * 4 {}
  lemma Low3(b: byte) ensures FromByte((b << 3) & 0x7F) == FromByte(b) % 16 * 8 {}
  lemma Low4(b: byte) ensures FromByte((b << 4) & 0x7F) == FromByte(b) % 8 * 16 {}
  lemma Low5(b: byte) ensures FromByte((b << 5) & 0x7F) == FromByte(b) % 4 * 32 {}
  lemma Low6(b: byte) ensures FromByte((b << 6) & 0x7F) == FromByte(b) % 2 * 64 {}

  lemma OrDisjoint(x: byte, y: byte)
    requires x & y == 0
    ensures FromByte(x | y) == FromByte(x) + FromByte(y)
  {
  }

  lemma FinalValue(lo: byte, hi: byte, k: nat)
    requires 1 <= k <= 7
    ensures FromByte(Final(lo, hi, k)) == FromByte(lo) / Pow2(8 - k) + FromByte(hi) % Pow2(7 - k) * Pow2(k)
  {
    HighValue(lo, k);
    LowValue(hi, k);
    HighLowDisjoint(lo, hi, k);
    OrDisjoint(High(lo, k), (hi << k) & 0x7F);
  }

  lemma HighLowDisjoint(lo: byte, hi: byte, k: nat)
    requires 1 <= k <= 7
    ensures High(lo, k) & ((hi << k) & 0x7F) == 0
    ensures Cont(lo, hi, k) == Final(lo, hi, k) | 0x80
  {
  }

  lemma Pow2Facts(k: nat)
    requires 1 <= k <= 7
    ensures Pow2(8 - k) * Pow2(k) == 0x100 && Pow2(k) * Pow2(7 - k) == 0x80
    ensures Pow2(8 - k) * 0x80 == 0x100 * Pow2(7 - k)
  {
  }

  lemma ClearMask(y: nat)
    requires y < 0x80
    ensures ToByte(y) & 0x7F == ToByte(y)
  {
    ByteRoundTrip(y);
    TopBit(ToByte(y));
  }

  // The continuation bit hides bit 7 of the byte it is set on.
  lemma SetMask(y: nat)
    requires y < 0x100
    ensures ToByte(y % 0x80) | 0x80 == ToByte(y) | 0x80
  {
    ByteRoundTrip(y);
    ByteRoundTrip(y % 0x80);
    MaskedEqual(ToByte(y), ToByte(y % 0x80));
  }

  lemma MaskedEqual(b: byte, low: byte)
    requires FromByte(b) % 0x80 == FromByte(low) < 0x80
    ensures b | 0x80 == low | 0x80
  {
    LowBits(b);
    ByteIsUnique(b & 0x7F);
    ByteIsUnique(low);
  }

  lemma LowBits(b: byte)
    ensures FromByte(b & 0x7F) == FromByte(b) % 0x80
    ensures b | 0x80 == (b & 0x7F) | 0x80
  {
  }

  lemma FinalIsGroup(y: nat, k: nat)
    requires 1 <= k <= 7
    ensures var lo, hi, g := ToByte(y % 0x100), ToByte(y / 0x100 % 0x100), y / Pow2(8 - k);
            Final(lo, hi, k) == ToByte(g % 0x80) && Cont(lo, hi, k) == ToByte(g % 0x80) | 0x80
  {
    var lo, hi := ToByte(y % 0x100), ToByte(y / 0x100 % 0x100);
    ByteRoundTrip(y % 0x100);
    ByteRoundTrip(y / 0x100 % 0x100);
    FinalValue(lo, hi, k);
    HighLowDisjoint(lo, hi, k);
    Pow2Facts(k);
    Regroup(y, Pow2(k), Pow2(8 - k), Pow2(7 - k));
    ByteIsUnique(Final(lo, hi, k));
  }

  lemma LessThanQuotient(y: nat, q: nat, c: nat)
    requires q > 0
    ensures y / q < c <==> y < c * q
  {
    if y < c * q {
      if y / q >= c { MulLe(q, c, y / q); }
    } else {
      if y / q < c { MulLe(q, y / q + 1, c); Distribute(q, y / q, 1); }
    }
  }

  // The threshold of the branch whose last byte is byte k.
  function Threshold(k: nat): nat
    requires 1 <= k <= 8
  {
    0x80 * Pow2(8 - k) * Pow256(k - 1)
  }

  // The k-th group of seven bits and all above it, read out of the memory bytes.
  function Groups(x: nat, k: nat): nat
    requires 1 <= k <= 8
  {
    DropBytes(x, k - 1) / Pow2(8 - k)
  }

  lemma GroupsStep(x: nat, k: nat)
    requires 1 <= k <= 7
    ensures Groups(x, k) / 0x80 == Groups(x, k + 1)
  {
    var y := DropBytes(x, k - 1);
    DropBytesStep(x, k - 1);
    Pow2Facts(k);
    DivDiv(y, Pow2(8 - k), 0x80);
    DivDiv(y, 0x100, Pow2(7 - k));
  }

  lemma GroupsBound(x: nat, k: nat)
    requires 1 <= k <= 8
    ensures Groups(x, k) < 0x80 <==> x < Threshold(k)
  {
    DropBytesBound(x, k - 1, 0x80 * Pow2(8 - k));
    LessThanQuotient(DropBytes(x, k - 1), Pow2(8 - k), 0x80);
  }

  lemma GroupBytes(x: nat, k: nat)
    requires 1 <= k <= 7
    ensures var d := LittleEndian(x, 8);
            Last(d, k) == ToByte(Groups(x, k) % 0x80) && Middle(d, k) == ToByte(Groups(x, k) % 0x80) | 0x80
  {
    LittleEndianAt(x, 8, k - 1);
    LittleEndianAt(x, 8, k);
    DropBytesStep(x, k - 1);
    FinalIsGroup(DropBytes(x, k - 1), k);
  }
}
