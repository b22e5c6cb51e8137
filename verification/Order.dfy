/** The orders on internal entries (src/util/comparator.cc). */
module Order {
  import opened Bytes
  import opened Varint
  import opened InternalEntry

  /** The value of a byte as the signed `char` the comparators compare. */
  function CharValue(b: byte): int {
    if FromByte(b) < 0x80 then FromByte(b) else FromByte(b) - 0x100
  }

  /** Lexicographic order on keys. */
  predicate KeyLess(a: seq<byte>, b: seq<byte>) {
    b != [] && (a == [] || CharValue(a[0]) < CharValue(b[0]) || (a[0] == b[0] && KeyLess(a[1..], b[1..])))
  }

  /** The order of the store: by key, then by id. */
  predicate Less(x: Entry, y: Entry) {
    KeyLess(x.key, y.key) || (x.key == y.key && x.id < y.id)
  }

  predicate LessEq(x: Entry, y: Entry) {
    !Less(y, x)
  }

  // ---------------------------------------------------------------- order laws

  lemma CharValueInjective(a: byte, b: byte)
    requires CharValue(a) == CharValue(b)
    ensures a == b
  {
    ByteIsUnique(a);
    ByteIsUnique(b);
  }

  lemma {:induction false} KeyIrreflexive(a: seq<byte>)
    ensures !KeyLess(a, a)
  {
    if a != [] {
      KeyIrreflexive(a[1..]);
    }
  }

  lemma {:induction false} KeyTransitive(a: seq<byte>, b: seq<byte>, c: seq<byte>)
    requires KeyLess(a, b) && KeyLess(b, c)
    ensures KeyLess(a, c)
  {
    if a != [] && a[0] == b[0] && b[0] == c[0] && KeyLess(a[1..], b[1..]) && KeyLess(b[1..], c[1..]) {
      KeyTransitive(a[1..], b[1..], c[1..]);
    }
  }

  lemma {:induction false} KeyTrichotomy(a: seq<byte>, b: seq<byte>)
    ensures KeyLess(a, b) || a == b || KeyLess(b, a)
  {
    if a != [] && b != [] {
      if CharValue(a[0]) == CharValue(b[0]) {
        CharValueInjective(a[0], b[0]);
        KeyTrichotomy(a[1..], b[1..]);
        assert a == [a[0]] + a[1..] && b == [b[0]] + b[1..];
      }
    }
  }

  lemma KeyAsymmetric(a: seq<byte>, b: seq<byte>)
    ensures !(KeyLess(a, b) && KeyLess(b, a))
    ensures KeyLess(a, b) ==> a != b
  {
    KeyIrreflexive(a);
    if KeyLess(a, b) && KeyLess(b, a) {
      KeyTransitive(a, b, a);
    }
  }

  /** Less is a strict total order on (key, id). */
  lemma LessIsStrictOrder(x: Entry, y: Entry, z: Entry)
    ensures !Less(x, x)
    ensures !(Less(x, y) && Less(y, x))
    ensures Less(x, y) && Less(y, z) ==> Less(x, z)
    ensures Less(x, y) || (x.key == y.key && x.id == y.id) || Less(y, x)
  {
    KeyIrreflexive(x.key);
    KeyAsymmetric(x.key, y.key);
    KeyTrichotomy(x.key, y.key);
    if KeyLess(x.key, y.key) && KeyLess(y.key, z.key) {
      KeyTransitive(x.key, y.key, z.key);
    }
  }

  /** LessEq is its reflexive closure. */
  lemma LessEqMeaning(x: Entry, y: Entry)
    ensures LessEq(x, y) <==> Less(x, y) || (x.key == y.key && x.id == y.id)
  {
    LessIsStrictOrder(x, y, x);
    LessIsStrictOrder(y, x, y);
  }

  lemma LessEqTransitive(x: Entry, y: Entry, z: Entry)
    requires LessEq(x, y) && LessEq(y, z)
    ensures LessEq(x, z)
    ensures Less(x, y) || Less(y, z) ==> Less(x, z)
  {
    LessEqMeaning(x, y);
    LessEqMeaning(y, z);
    LessEqMeaning(x, z);
    LessIsStrictOrder(x, y, z);
  }

  lemma LessEqTotal(x: Entry, y: Entry)
    ensures LessEq(x, y) || LessEq(y, x)
    ensures LessEq(x, x)
    ensures Less(x, y) ==> LessEq(x, y)
  {
    LessIsStrictOrder(x, y, x);
    LessIsStrictOrder(x, x, x);
  }

  // ---------------------------------------------------------------- the order on the bits

  /** Bytes as signed chars: with the sign bit flipped, they compare as unsigned numbers. */
  predicate CharLess(b: byte, c: byte) {
    b ^ 0x80 < c ^ 0x80
  }

  lemma HighByte(b: byte)
    ensures b >= 0x80 <==> FromByte(b) >= 0x80
    ensures b >= 0x80 ==> FromByte(b ^ 0x80) == FromByte(b) - 0x80
    ensures b < 0x80 ==> FromByte(b ^ 0x80) == FromByte(b) + 0x80
  {
  }

  lemma CharOrder(b: byte, c: byte)
    ensures CharValue(b) < CharValue(c) <==> CharLess(b, c)
  {
    FlippedValue(b);
    FlippedValue(c);
    SmallerByte(b ^ 0x80, c ^ 0x80);
  }

  lemma FlippedValue(b: byte)
    ensures FromByte(b ^ 0x80) == CharValue(b) + 0x80
  {
    HighByte(b);
  }

  lemma SmallerByte(b: byte, c: byte)
    ensures b < c <==> FromByte(b) < FromByte(c)
  {
  }

  /** Key a comes before key b: at the first place where they differ, a has the smaller signed char,
      or a ends there. */
  ghost predicate KeyBefore(a: seq<byte>, b: seq<byte>) {
    exists i: nat :: SmallerAt(a, b, i)
  }

  predicate SmallerAt(a: seq<byte>, b: seq<byte>, i: nat) {
    && i <= |a| && i < |b| && (forall k :: 0 <= k < i ==> a[k] == b[k])
    && (i == |a| || CharLess(a[i], b[i]))
  }

  /** The order on keys is that one. */
  lemma {:induction false} KeyLessIsBefore(a: seq<byte>, b: seq<byte>)
    ensures KeyLess(a, b) <==> KeyBefore(a, b)
  {
    if b != [] && a == [] {
      assert SmallerAt(a, b, 0);
    } else if b != [] {
      CharOrder(a[0], b[0]);
      KeyLessIsBefore(a[1..], b[1..]);
      if a[0] == b[0] {
        BeforeTail(a, b);
      } else {
        BeforeHead(a, b);
      }
    }
  }

  lemma BeforeTail(a: seq<byte>, b: seq<byte>)
    requires a != [] && b != [] && a[0] == b[0]
    ensures KeyBefore(a, b) <==> KeyBefore(a[1..], b[1..])
  {
    if KeyBefore(a[1..], b[1..]) {
      var i: nat :| SmallerAt(a[1..], b[1..], i);
      TailSmaller(a, b, i);
    }
    if KeyBefore(a, b) {
      var i: nat :| SmallerAt(a, b, i);
      assert i > 0;
      TailSmaller(a, b, i - 1);
    }
  }

  lemma TailSmaller(a: seq<byte>, b: seq<byte>, i: nat)
    requires a != [] && b != [] && a[0] == b[0]
    ensures SmallerAt(a, b, i + 1) <==> SmallerAt(a[1..], b[1..], i)
  {
    if SmallerAt(a[1..], b[1..], i) {
      assert forall k :: 0 < k < i + 1 ==> a[k] == a[1..][k - 1] && b[k] == b[1..][k - 1];
    }
  }

  lemma BeforeHead(a: seq<byte>, b: seq<byte>)
    requires a != [] && b != [] && a[0] != b[0]
    ensures KeyBefore(a, b) <==> CharLess(a[0], b[0])
  {
    if CharLess(a[0], b[0]) {
      assert SmallerAt(a, b, 0);
    }
  }

  /** Entry x comes before entry y: by key, then by id. */
  ghost predicate Before(x: Entry, y: Entry) {
    KeyBefore(x.key, y.key) || (x.key == y.key && x.id < y.id)
  }

  lemma LessIsBefore(x: Entry, y: Entry)
    ensures Less(x, y) <==> Before(x, y)
  {
    KeyLessIsBefore(x.key, y.key);
  }

  // ---------------------------------------------------------------- the comparators

  // The loop every comparator starts with: skips the common prefix of two keys.
  method SkipCommon(first: seq<byte>, second: seq<byte>) returns (i: nat)
    ensures i <= |first| && i <= |second| && first[..i] == second[..i]
    ensures i < |first| && i < |second| ==> first[i] != second[i]
  {
    i := 0;
    while i < |first| && i < |second| && first[i] == second[i]
      invariant i <= |first| && i <= |second| && first[..i] == second[..i]
    {
      i := i + 1;
    }
  }

  // A common prefix of length i does not matter to the order.
  lemma {:induction false} DropCommon(a: seq<byte>, b: seq<byte>, i: nat)
    requires i <= |a| && i <= |b| && a[..i] == b[..i]
    ensures KeyLess(a, b) <==> KeyLess(a[i..], b[i..])
    ensures a == b <==> a[i..] == b[i..]
  {
    assert a == a[..i] + a[i..] && b == b[..i] + b[i..];
    if i > 0 {
      assert a[0] == a[..i][0] == b[..i][0] == b[0];
      assert a[1..][..i - 1] == a[..i][1..] == b[..i][1..] == b[1..][..i - 1];
      DropCommon(a[1..], b[1..], i - 1);
      assert a[1..][i - 1..] == a[i..] && b[1..][i - 1..] == b[i..];
    }
  }

  /** An entry pointer: memory that starts with the entry e. */
  predicate PointsTo(s: seq<byte>, e: Entry) {
    Encodable(e) && Encoded(e) <= s
  }

  lemma PointerReads(s: seq<byte>, e: Entry)
    requires PointsTo(s, e)
    ensures HoldsEntry(s) && EntryKey(s) == e.key && EntryId(s) == e.id && s != []
    ensures s[0] == 0 <==> e.key == []
  {
    assert s == Encoded(e) + s[|Encoded(e)|..];
    EntryRoundTrip(e, s[|Encoded(e)|..]);
    FirstByteOfSize(|e.key|);
    assert s[0] == Base128(|e.key|)[0];
  }

  lemma FirstByteOfSize(n: nat)
    ensures Base128(n)[0] == 0 <==> n == 0
  {
    if n < 0x80 {
      ByteRoundTrip(n);
    } else {
      ByteIsUnique(ToByte(n % 0x80));
      SetIsNotZero(ToByte(n % 0x80));
    }
  }

  lemma SetIsNotZero(b: byte)
    ensures b | 0x80 != 0
  {
  }

  /** InternalEntryComparator::GreaterOrEquals. A leading zero byte (an empty key) means infinite. */
  method GreaterOrEquals(first: seq<byte>, second: seq<byte>, ghost x: Entry, ghost y: Entry) returns (r: bool)
    requires PointsTo(first, x) && PointsTo(second, y)
    ensures x.key != [] && y.key != [] ==> (r <==> LessEq(y, x))
    ensures x.key != [] && y.key != [] ==> (r <==> !Before(x, y))
    ensures x.key == [] ==> r
    ensures x.key != [] && y.key == [] ==> !r
  {
    LessIsBefore(x, y);
    PointerReads(first, x);
    PointerReads(second, y);
    if first[0] == 0 {
      return true;
    }
    if second[0] == 0 {
      return false;
    }
    var a, b := EntryKey(first), EntryKey(second);
    var i := SkipCommon(a, b);
    KeyOrderAt(a, b, i);
    if i == |a| && i == |b| {
      return EntryId(first) >= EntryId(second);
    } else if i == |b| {
      return true;
    } else if i < |a| {
      return CharValue(a[i]) >= CharValue(b[i]);
    }
    return false;
  }

  /** InternalEntryComparator::LessOrEquals. */
  method LessOrEquals(first: seq<byte>, second: seq<byte>, ghost x: Entry, ghost y: Entry) returns (r: bool)
    requires PointsTo(first, x) && PointsTo(second, y)
    ensures x.key != [] && y.key != [] ==> (r <==> LessEq(x, y))
    ensures x.key != [] && y.key != [] ==> (r <==> !Before(y, x))
    ensures x.key == [] ==> r
    ensures x.key != [] && y.key == [] ==> !r
  {
    LessIsBefore(y, x);
    PointerReads(first, x);
    PointerReads(second, y);
    if first[0] == 0 {
      return true;
    }
    if second[0] == 0 {
      return false;
    }
    var a, b := EntryKey(first), EntryKey(second);
    var i := SkipCommon(a, b);
    KeyOrderAt(a, b, i);
    if i == |a| && i == |b| {
      return EntryId(first) <= EntryId(second);
    } else if i == |a| {
      return true;
    } else if i < |b| {
      return CharValue(a[i]) <= CharValue(b[i]);
    }
    return false;
  }

  // Where the keys part decides the order.
  lemma KeyOrderAt(a: seq<byte>, b: seq<byte>, i: nat)
    requires i <= |a| && i <= |b| && a[..i] == b[..i]
    requires i < |a| && i < |b| ==> a[i] != b[i]
    ensures a == b <==> i == |a| && i == |b|
    ensures KeyLess(a, b) <==> i < |b| && (i == |a| || CharLess(a[i], b[i]))
    ensures KeyLess(b, a) <==> i < |a| && (i == |b| || CharLess(b[i], a[i]))
    ensures i < |a| && i < |b| ==> (CharLess(a[i], b[i]) <==> CharValue(a[i]) < CharValue(b[i]))
    ensures i < |a| && i < |b| ==> (CharLess(b[i], a[i]) <==> CharValue(b[i]) < CharValue(a[i]))
    ensures i < |a| && i < |b| ==> CharValue(a[i]) != CharValue(b[i])
  {
    DropCommon(a, b, i);
    DropCommon(b, a, i);
    if i < |a| && i < |b| {
      CharOrder(a[i], b[i]);
      CharOrder(b[i], a[i]);
      if CharValue(a[i]) == CharValue(b[i]) {
        CharValueInjective(a[i], b[i]);
      }
    }
  }

  /** InternalEntryComparator::Greater: the exact strict part, on non-empty keys. */
  method Greater(first: seq<byte>, second: seq<byte>, ghost x: Entry, ghost y: Entry) returns (r: bool)
    requires PointsTo(first, x) && PointsTo(second, y)
    ensures x.key != [] && y.key != [] ==> (r <==> Less(y, x))
    ensures x.key != [] && y.key != [] ==> (r <==> Before(y, x))
    ensures x.key == [] ==> !r
    ensures x.key != [] && y.key == [] ==> r
  {
    LessIsBefore(y, x);
    var le := LessOrEquals(first, second, x, y);
    return !le;
  }

  /** InternalEntryComparator::Less, the other strict part. */
  method Smaller(first: seq<byte>, second: seq<byte>, ghost x: Entry, ghost y: Entry) returns (r: bool)
    requires PointsTo(first, x) && PointsTo(second, y)
    ensures x.key != [] && y.key != [] ==> (r <==> Less(x, y))
    ensures x.key != [] && y.key != [] ==> (r <==> Before(x, y))
    ensures x.key == [] ==> !r
    ensures x.key != [] && y.key == [] ==> r
  {
    LessIsBefore(x, y);
    var ge := GreaterOrEquals(first, second, x, y);
    return !ge;
  }

  /** InternalEntryComparator::Equal compares keys only. */
  method Equal(first: seq<byte>, second: seq<byte>, ghost x: Entry, ghost y: Entry) returns (r: bool)
    requires PointsTo(first, x) && PointsTo(second, y)
    ensures r <==> x.key == y.key
  {
    PointerReads(first, x);
    PointerReads(second, y);
    if first[0] == 0 || second[0] == 0 {
      return first[0] == second[0];
    }
    var a, b := EntryKey(first), EntryKey(second);
    var i := SkipCommon(a, b);
    KeyOrderAt(a, b, i);
    return |a| - i == |b| - i && |a| - i == 0;
  }

  /** QueryComparator::GreaterOrEquals: the key-only projection of the order. */
  method QueryGreaterOrEquals(first: seq<byte>, second: seq<byte>, ghost x: Entry, ghost y: Entry) returns (r: bool)
    requires PointsTo(first, x) && PointsTo(second, y)
    ensures x.key != [] && y.key != [] ==> (r <==> !KeyLess(x.key, y.key))
    ensures x.key != [] && y.key != [] ==> (r <==> !KeyBefore(x.key, y.key))
    ensures x.key == [] ==> r
    ensures x.key != [] && y.key == [] ==> !r
  {
    KeyLessIsBefore(x.key, y.key);
    PointerReads(first, x);
    PointerReads(second, y);
    if first[0] == 0 {
      return true;
    }
    if second[0] == 0 {
      return false;
    }
    var a, b := EntryKey(first), EntryKey(second);
    var i := SkipCommon(a, b);
    KeyOrderAt(a, b, i);
    if i == |b| {
      return true;
    } else if i == |a| {
      return false;
    }
    return CharValue(a[i]) >= CharValue(b[i]);
  }

  /** QueryComparator::LessOrEquals. */
  method QueryLessOrEquals(first: seq<byte>, second: seq<byte>, ghost x: Entry, ghost y: Entry) returns (r: bool)
    requires PointsTo(first, x) && PointsTo(second, y)
    ensures x.key != [] && y.key != [] ==> (r <==> !KeyLess(y.key, x.key))
    ensures x.key != [] && y.key != [] ==> (r <==> !KeyBefore(y.key, x.key))
    ensures x.key == [] ==> r
    ensures x.key != [] && y.key == [] ==> !r
  {
    KeyLessIsBefore(y.key, x.key);
    PointerReads(first, x);
    PointerReads(second, y);
    if first[0] == 0 {
      return true;
    }
    if second[0] == 0 {
      return false;
    }
    var a, b := EntryKey(first), EntryKey(second);
    var i := SkipCommon(a, b);
    KeyOrderAt(a, b, i);
    if i == |a| {
      return true;
    } else if i == |b| {
      return false;
    }
    return CharValue(a[i]) <= CharValue(b[i]);
  }

  /** The virtual call in the inherited Greater: QueryComparator's strict part. */
  method QueryGreater(first: seq<byte>, second: seq<byte>, ghost x: Entry, ghost y: Entry) returns (r: bool)
    requires PointsTo(first, x) && PointsTo(second, y)
    ensures x.key != [] && y.key != [] ==> (r <==> KeyLess(y.key, x.key))
    ensures x.key != [] && y.key != [] ==> (r <==> KeyBefore(y.key, x.key))
  {
    KeyLessIsBefore(y.key, x.key);
    var le := QueryLessOrEquals(first, second, x, y);
    return !le;
  }
}
