/** Bytes and the little-endian layout of unsigned integers in memory. */
module Bytes {

  import Arithmetic

  type byte = bv8

  function ToByte(n: nat): byte
    requires n < 0x100
  {
    n as bv8
  }

  function FromByte(b: byte): nat {
    b as int
  }

  // The solver knows the byte -> int -> byte direction; the other one follows by counting up.
  lemma {:induction false} ByteOf(n: nat) returns (b: byte)
    requires n < 0x100
    ensures FromByte(b) == n
  {
    if n == 0 {
      b := 0;
    } else {
      var c := ByteOf(n - 1);
      b := c + 1;
    }
  }

  lemma ByteRoundTrip(n: nat)
    requires n < 0x100
    ensures FromByte(ToByte(n)) == n
  {
    var b := ByteOf(n);
    assert (b as int) as bv8 == b;
  }

  lemma ByteIsUnique(b: byte)
    ensures FromByte(b) < 0x100 && ToByte(FromByte(b)) == b
  {
  }

  lemma TopBit(b: byte)
    ensures FromByte(b) < 0x80 <==> b & 0x80 == 0
    ensures FromByte(b) < 0x80 <==> b & 0x7F == b
    ensures FromByte(b) >= 0x80 <==> b | 0x80 == b
  {
  }

  /** The k low-order bytes of n, least significant first, as a cast of &n to char* shows them. */
  function LittleEndian(n: nat, k: nat): (s: seq<byte>)
    ensures |s| == k
  {
    if k == 0 then [] else [ToByte(n % 0x100)] + LittleEndian(n / 0x100, k - 1)
  }

  /** The integer stored in s. */
  function FromLittleEndian(s: seq<byte>): nat {
    if s == [] then 0 else FromByte(s[0]) + 0x100 * FromLittleEndian(s[1..])
  }

  function Pow256(k: nat): nat {
    if k == 0 then 1 else 0x100 * Pow256(k - 1)
  }

  lemma {:induction false} LittleEndianRoundTrip(n: nat, k: nat)
    requires n < Pow256(k)
    ensures FromLittleEndian(LittleEndian(n, k)) == n
  {
    if k > 0 {
      ByteRoundTrip(n % 0x100);
      LittleEndianRoundTrip(n / 0x100, k - 1);
    }
  }

  // n without its i low-order bytes.
  function DropBytes(n: nat, i: nat): nat {
    if i == 0 then n else DropBytes(n / 0x100, i - 1)
  }

  lemma {:induction false} DropBytesStep(n: nat, i: nat)
    ensures DropBytes(n, i) / 0x100 == DropBytes(n, i + 1)
  {
    if i > 0 {
      DropBytesStep(n / 0x100, i - 1);
    }
  }

  lemma {:induction false} LittleEndianAt(n: nat, k: nat, i: nat)
    requires i < k
    ensures LittleEndian(n, k)[i] == ToByte(DropBytes(n, i) % 0x100)
  {
    if i > 0 {
      LittleEndianAt(n / 0x100, k - 1, i - 1);
      assert LittleEndian(n, k)[i] == LittleEndian(n / 0x100, k - 1)[i - 1];
    }
  }

  lemma {:induction false} DropBytesBound(n: nat, i: nat, c: nat)
    ensures DropBytes(n, i) < c <==> n < c * Pow256(i)
  {
    if i > 0 {
      DropBytesBound(n / 0x100, i - 1, c);
      Arithmetic.Associate(c, 0x100, Pow256(i - 1));
      Arithmetic.Associate(0x100, c, Pow256(i - 1));
    }
  }

  lemma {:induction false} FromLittleEndianAppend(s: seq<byte>, b: byte)
    ensures FromLittleEndian(s + [b]) == FromLittleEndian(s) + Pow256(|s|) * FromByte(b)
  {
    if s != [] {
      assert (s + [b])[1..] == s[1..] + [b];
      FromLittleEndianAppend(s[1..], b);
      Arithmetic.Associate(0x100, Pow256(|s| - 1), FromByte(b));
      Arithmetic.Distribute(0x100, FromLittleEndian(s[1..]), Pow256(|s| - 1) * FromByte(b));
    }
  }
}
