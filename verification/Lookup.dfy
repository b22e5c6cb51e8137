/** Looking a key up in an SST file (src/table/db.cc:751-869). */
module Lookup {
  import opened Bytes
  import opened Lists
  import opened InternalEntry
  import opened Order
  import opened Sorted
  import opened Bloom
  import opened SST

  predicate Present(es: seq<Entry>, key: seq<byte>) {
    exists e <- es :: e.key == key
  }

  /** What a linear scan of the entries returns: the first entry of the key, if there is one. */
  function Scan(es: seq<Entry>, key: seq<byte>): seq<byte> {
    if es == [] then [] else if es[0].key == key then Encoded(es[0]) else Scan(es[1..], key)
  }

  predicate DistinctKeys(es: seq<Entry>) {
    forall i, j :: 0 <= i < j < |es| ==> es[i].key != es[j].key
  }

  /** A correct answer to a lookup: nothing if the key is absent, otherwise one of its entries. */
  predicate Answers(ret: seq<byte>, es: seq<Entry>, key: seq<byte>) {
    if ret == [] then !Present(es, key) else exists e <- es :: e.key == key && Encoded(e) == ret
  }

  /** With unique keys there is one correct answer, that of the scan. */
  lemma {:induction false} AnswerIsScan(ret: seq<byte>, es: seq<Entry>, key: seq<byte>)
    requires Answers(ret, es, key) && DistinctKeys(es)
    ensures ret == Scan(es, key)
  {
    if es != [] {
      var rest := es[1..];
      assert forall e :: e in es <==> e == es[0] || e in rest;
      forall e <- rest
        ensures e.key != es[0].key
      {
      }
      if es[0].key != key {
        AnswerIsScan(ret, rest, key);
      }
    }
  }

  // ---------------------------------------------------------------- blocks in order

  // The blocks a binary search may still find the key in.
  predicate OnlyIn(parts: seq<seq<Entry>>, key: seq<byte>, l: int, r: int) {
    forall i :: 0 <= i < |parts| && (i < l || i > r) ==> !Present(parts[i], key)
  }

  lemma KeysInOrder(es: seq<Entry>, i: nat, j: nat)
    requires IsSorted(es) && i < j < |es|
    ensures !KeyLess(es[j].key, es[i].key)
  {
    LessEqMeaning(es[i], es[j]);
    KeyAsymmetric(es[i].key, es[j].key);
    KeyIrreflexive(es[i].key);
  }

  // Where an element of a part is in the whole.
  function Position<T>(parts: seq<seq<T>>, i: nat, k: nat): (p: nat)
    requires i < |parts| && k < |parts[i]|
    ensures p < |Flatten(parts)| && Flatten(parts)[p] == parts[i][k]
  {
    FlattenPart(parts, i);
    var at := |Flatten(parts[..i])|;
    assert Flatten(parts)[at..at + |parts[i]|][k] == parts[i][k];
    at + k
  }

  lemma PositionsInOrder<T>(parts: seq<seq<T>>, i: nat, k: nat, j: nat, m: nat)
    requires i < j < |parts| && k < |parts[i]| && m < |parts[j]|
    ensures Position(parts, i, k) < Position(parts, j, m)
  {
    FlattenPart(parts, i);
    assert parts[..j] == parts[..i + 1] + parts[i + 1..j];
    FlattenAppend(parts[..i + 1], parts[i + 1..j]);
  }

  // An entry of a block compared with the last entry of another.
  lemma BlocksInOrder(es: seq<Entry>, parts: seq<seq<Entry>>, i: nat, k: nat, mid: nat)
    requires IsSorted(es) && Flatten(parts) == es
    requires i < |parts| && k < |parts[i]| && mid < |parts| && parts[mid] != []
    ensures i <= mid ==> !KeyLess(parts[mid][|parts[mid]| - 1].key, parts[i][k].key)
    ensures i > mid ==> !KeyLess(parts[i][k].key, parts[mid][|parts[mid]| - 1].key)
  {
    var m := |parts[mid]| - 1;
    var a, b := Position(parts, i, k), Position(parts, mid, m);
    KeyIrreflexive(es[a].key);
    if i < mid {
      PositionsInOrder(parts, i, k, mid, m);
      KeysInOrder(es, a, b);
    } else if mid < i {
      PositionsInOrder(parts, mid, m, i, k);
      KeysInOrder(es, b, a);
    } else if k < m {
      KeysInOrder(es, a, b);
    }
  }

  // The key is not in block mid: then the search goes right or left of it.
  lemma Narrow(es: seq<Entry>, parts: seq<seq<Entry>>, key: seq<byte>, l: int, r: int, mid: nat)
    requires IsSorted(es) && Flatten(parts) == es && OnlyIn(parts, key, l, r)
    requires mid < |parts| && parts[mid] != [] && !Present(parts[mid], key)
    ensures var last := parts[mid][|parts[mid]| - 1].key;
            if KeyLess(last, key) then OnlyIn(parts, key, mid + 1, r) else OnlyIn(parts, key, l, mid - 1)
  {
    var last := parts[mid][|parts[mid]| - 1];
    assert last in parts[mid];
    KeyTrichotomy(last.key, key);
    forall i | 0 <= i < |parts| && if KeyLess(last.key, key) then i < mid + 1 else i > mid - 1
      ensures !Present(parts[i], key)
    {
      forall e <- parts[i]
        ensures e.key != key
      {
        var k :| 0 <= k < |parts[i]| && parts[i][k] == e;
        BlocksInOrder(es, parts, i, k, mid);
        KeyAsymmetric(last.key, key);
      }
    }
  }

  lemma AbsentEverywhere(parts: seq<seq<Entry>>, key: seq<byte>)
    requires forall part <- parts :: !Present(part, key)
    ensures !Present(Flatten(parts), key)
  {
    if parts != [] {
      AbsentEverywhere(parts[..|parts| - 1], key);
      assert parts[|parts| - 1] in parts;
    }
  }

  lemma PartsBelong<T>(parts: seq<seq<T>>, i: nat)
    requires i < |parts|
    ensures forall x <- parts[i] :: x in Flatten(parts)
  {
    forall x <- parts[i]
      ensures x in Flatten(parts)
    {
      var k :| 0 <= k < |parts[i]| && parts[i][k] == x;
      var p := Position(parts, i, k);
    }
  }

  // ---------------------------------------------------------------- lookups

  lemma {:induction false} ScanFinds(es: seq<Entry>, key: seq<byte>, i: nat)
    requires i <= |es| && forall j :: 0 <= j < i ==> es[j].key != key
    ensures i < |es| && es[i].key == key ==> Scan(es, key) == Encoded(es[i])
    ensures i == |es| ==> Scan(es, key) == []
  {
    if i > 0 {
      ScanFinds(es[1..], key, i - 1);
    }
  }

  /** The loop that looks for an equal entry in a block: it stops at the first one. */
  method ScanBlock(entrySet: seq<seq<byte>>, query: seq<byte>, ghost part: seq<Entry>,
                   ghost q: Entry) returns (ret: seq<byte>)
    requires entrySet == Slices(part) && (forall e <- part :: Encodable(e)) && PointsTo(query, q)
    ensures Answers(ret, part, q.key) && ret == Scan(part, q.key)
  {
    for i := 0 to |entrySet|
      invariant forall j :: 0 <= j < i ==> part[j].key != q.key
    {
      SlicesAt(part, i);
      ScanFinds(part, q.key, i);
      var equal := Equal(entrySet[i], query, part[i], q);
      if equal {
        PointerReads(entrySet[i], part[i]);
        return entrySet[i];
      }
    }
    ScanFinds(part, q.key, |part|);
    return [];
  }

  // One turn of the binary search over blocks.
  method SearchBlock(file: seq<byte>, bounds: seq<nat>, mid: nat, query: seq<byte>, ghost part: seq<Entry>,
                     ghost q: Entry)
    returns (ret: seq<byte>, right: bool)
    requires ReadsBlock(file, bounds, mid, part) && part != [] && PointsTo(query, q) && q.key != []
    requires forall e <- part :: Encodable(e) && e.key != []
    ensures Answers(ret, part, q.key) && ret == Scan(part, q.key)
    ensures right <==> KeyLess(part[|part| - 1].key, q.key)
  {
    var entrySet := ReadSSTDataBlock(file, bounds[mid + 1] - bounds[mid], bounds[mid], part);
    ret := ScanBlock(entrySet, query, part, q);
    SlicesAt(part, |part| - 1);
    right := QueryGreater(query, entrySet[|entrySet| - 1], q, part[|part| - 1]);
  }

  /** The answer is the first entry of the key in a block that has one. */
  predicate FirstOfBlock(ret: seq<byte>, parts: seq<seq<Entry>>, key: seq<byte>) {
    exists i :: 0 <= i < |parts| && Present(parts[i], key) && ret == Scan(parts[i], key)
  }

  /** How often n can be halved: the logarithm of n. */
  function Halvings(n: nat): nat {
    if n == 0 then 0 else 1 + Halvings(n / 2)
  }

  lemma {:induction false} HalvingsGrow(m: nat, n: nat)
    requires m <= n
    ensures Halvings(m) <= Halvings(n)
  {
    if m > 0 {
      HalvingsGrow(m / 2, n / 2);
    }
  }

  // Both sides of the middle are halves.
  lemma Halved(l: nat, r: nat)
    requires l <= r
    ensures var mid := (l + r) / 2;
            1 + Halvings(mid - l) <= Halvings(r + 1 - l) && 1 + Halvings(r - mid) <= Halvings(r + 1 - l)
  {
    HalvingsGrow((l + r) / 2 - l, (r + 1 - l) / 2);
    HalvingsGrow(r - (l + r) / 2, (r + 1 - l) / 2);
  }

  lemma FoundInBlock(ret: seq<byte>, parts: seq<seq<Entry>>, i: nat, key: seq<byte>)
    requires i < |parts| && Answers(ret, parts[i], key) && ret == Scan(parts[i], key)
    ensures ret == [] ==> !Present(parts[i], key)
    ensures ret != [] ==> Answers(ret, Flatten(parts), key) && FirstOfBlock(ret, parts, key)
  {
    PartsBelong(parts, i);
  }

  // The bounds cut the file into non-empty blocks of readable entries with keys.
  ghost predicate AreRead(file: seq<byte>, bounds: seq<nat>, parts: seq<seq<Entry>>) {
    && |bounds| == |parts| + 1
    && (forall i :: 0 <= i < |parts| ==> parts[i] != [] && ReadsBlock(file, bounds, i, parts[i]))
    && forall e <- Flatten(parts) :: Encodable(e) && e.key != []
  }

  // The same within the whole file: nothing was found and one side is ruled out, or an answer is found.
  method Probe(file: seq<byte>, bounds: seq<nat>, l: int, r: int, mid: nat, query: seq<byte>,
               ghost parts: seq<seq<Entry>>, ghost q: Entry)
    returns (ret: seq<byte>, right: bool)
    requires AreRead(file, bounds, parts) && IsSorted(Flatten(parts)) && PointsTo(query, q) && q.key != []
    requires mid < |parts| && OnlyIn(parts, q.key, l, r)
    ensures ret == [] ==> if right then OnlyIn(parts, q.key, mid + 1, r) else OnlyIn(parts, q.key, l, mid - 1)
    ensures ret != [] ==> Answers(ret, Flatten(parts), q.key) && FirstOfBlock(ret, parts, q.key)
  {
    PartsBelong(parts, mid);
    ret, right := SearchBlock(file, bounds, mid, query, parts[mid], q);
    FoundInBlock(ret, parts, mid, q.key);
    if ret == [] {
      Narrow(Flatten(parts), parts, q.key, l, r, mid);
    }
  }

  // One turn of the loop, which halves the range.
  method Halve(file: seq<byte>, bounds: seq<nat>, l: int, r: int, query: seq<byte>, ghost parts: seq<seq<Entry>>,
               ghost q: Entry)
    returns (ret: seq<byte>, l': int, r': int)
    requires AreRead(file, bounds, parts) && IsSorted(Flatten(parts)) && PointsTo(query, q) && q.key != []
    requires 0 <= l <= r < |parts| && OnlyIn(parts, q.key, l, r)
    ensures l <= l' <= r' + 1 <= r + 1 && 1 + Halvings(r' + 1 - l') <= Halvings(r + 1 - l)
    ensures ret == [] ==> OnlyIn(parts, q.key, l', r')
    ensures ret != [] ==> Answers(ret, Flatten(parts), q.key) && FirstOfBlock(ret, parts, q.key)
  {
    var mid := (l + r) / 2;
    var right: bool;
    Halved(l, r);
    ret, right := Probe(file, bounds, l, r, mid, query, parts, q);
    if right {
      l', r' := mid + 1, r;
    } else {
      l', r' := l, mid - 1;
    }
  }

  // The binary search of GetFromSST; `probes` is the number of blocks it reads.
  method SearchBlocks(file: seq<byte>, bounds: seq<nat>, query: seq<byte>, ghost parts: seq<seq<Entry>>,
                      ghost q: Entry)
    returns (ret: seq<byte>, ghost probes: nat)
    requires AreRead(file, bounds, parts) && IsSorted(Flatten(parts)) && PointsTo(query, q) && q.key != []
    ensures Answers(ret, Flatten(parts), q.key) && (ret != [] ==> FirstOfBlock(ret, parts, q.key))
    ensures probes <= Halvings(|parts|)
  {
    var l, r := 0, |bounds| - 2;
    probes := 0;
    while l <= r
      invariant 0 <= l <= r + 1 <= |parts| && OnlyIn(parts, q.key, l, r)
      invariant probes + Halvings(r + 1 - l) <= Halvings(|parts|)
      decreases Halvings(r + 1 - l)
    {
      probes := probes + 1;
      ret, l, r := Halve(file, bounds, l, r, query, parts, q);
      if ret != [] {
        return;
      }
    }
    AbsentEverywhere(parts, q.key);
    ret := [];
  }

  /** TCDB::GetFromSST, on the bytes of a file: the answer is right for every sorted file. If a key is
      repeated it is the first of its block. The number of blocks read is at most logarithmic. */
  method GetFromSST(query: seq<byte>, file: seq<byte>, footer: Footer, seeds: seq<nat>, hash: Hash,
                    ghost es: seq<Entry>, ghost blocks: seq<Strings>, ghost filter: seq<byte>, ghost q: Entry)
    returns (ret: seq<byte>, ghost probes: nat)
    requires IsFile(file, Slices(es), blocks, filter, footer) && |file| < U32_MODULUS
    requires IsFilter(filter, Keys(es), seeds, hash)
    requires IsSorted(es) && (forall e <- es :: Encodable(e) && e.key != []) && PointsTo(query, q) && q.key != []
    ensures probes <= Halvings(|blocks|)
    ensures Answers(ret, es, q.key) && (ret != [] ==> FirstOfBlock(ret, SplitLike(es, blocks), q.key))
  {
    PointerReads(query, q);
    var passes := CheckFilter(EntryKey(query), file, footer, seeds, hash, es, blocks, filter);
    if !passes {
      return [], 0;
    }
    var index := ReadSSTIndex(file, footer, Slices(es), blocks, filter);
    DataRoundTrip(file, es, blocks, filter, footer);
    ret, probes := SearchBlocks(file, index + [footer.dataSize], query, SplitLike(es, blocks), q);
  }

  // Reads the filter and asks it.
  method CheckFilter(key: seq<byte>, file: seq<byte>, footer: Footer, seeds: seq<nat>, hash: Hash,
                     ghost es: seq<Entry>, ghost blocks: seq<Strings>, ghost filter: seq<byte>)
    returns (passes: bool)
    requires IsFile(file, Slices(es), blocks, filter, footer) && IsFilter(filter, Keys(es), seeds, hash)
    ensures !passes ==> !Present(es, key)
  {
    var content := ReadSSTFlexible(file, footer, Slices(es), blocks, filter);
    passes := ContainsKey(key, content, seeds, hash);
    NoFalseNegatives(key, filter, Keys(es), seeds, hash);
    forall e <- es
      ensures e.key in Keys(es)
    {
      var i :| 0 <= i < |es| && es[i] == e;
      assert Keys(es)[i] == e.key;
    }
  }

  /** TCDB::GetFromSSTv2: the binary search over all entries of the file. */
  method GetFromSSTv2(query: seq<byte>, file: seq<byte>, footer: Footer, seeds: seq<nat>, hash: Hash,
                      ghost es: seq<Entry>, ghost blocks: seq<Strings>, ghost filter: seq<byte>, ghost q: Entry)
    returns (ret: seq<byte>)
    requires IsFile(file, Slices(es), blocks, filter, footer) && |file| < U32_MODULUS
    requires IsFilter(filter, Keys(es), seeds, hash)
    requires IsSorted(es) && (forall e <- es :: Encodable(e) && e.key != []) && PointsTo(query, q) && q.key != []
    ensures Answers(ret, es, q.key)
  {
    PointerReads(query, q);
    var passes := CheckFilter(EntryKey(query), file, footer, seeds, hash, es, blocks, filter);
    if !passes {
      return [];
    }
    FileParts(file, Slices(es), blocks, filter, footer);
    FlattenSlices(es);
    var entrySet := ParseBlock(file[..footer.dataSize], es);
    ret := SearchEntries(entrySet, query, es, q);
  }

  method SearchEntries(entrySet: seq<seq<byte>>, query: seq<byte>, ghost es: seq<Entry>,
                       ghost q: Entry) returns (ret: seq<byte>)
    requires entrySet == Slices(es) && IsSorted(es) && PointsTo(query, q) && q.key != []
    requires forall e <- es :: Encodable(e) && e.key != []
    ensures Answers(ret, es, q.key)
  {
    var l, r := 0, |entrySet| - 1;
    while l <= r
      invariant 0 <= l && r < |es|
      invariant forall i :: 0 <= i < |es| && (i < l || i > r) ==> es[i].key != q.key
    {
      var mid := (l + r) / 2;
      SlicesAt(es, mid);
      var equal := Equal(entrySet[mid], query, es[mid], q);
      if equal {
        PointerReads(entrySet[mid], es[mid]);
        return entrySet[mid];
      }
      EntriesInOrder(es, q.key, mid);
      var right := QueryGreater(query, entrySet[mid], q, es[mid]);
      if right {
        l := mid + 1;
      } else {
        r := mid - 1;
      }
    }
    return [];
  }

  lemma EntriesInOrder(es: seq<Entry>, key: seq<byte>, mid: nat)
    requires IsSorted(es) && mid < |es| && es[mid].key != key
    ensures KeyLess(es[mid].key, key) ==> forall i :: 0 <= i < mid ==> es[i].key != key
    ensures !KeyLess(es[mid].key, key) ==> forall i :: mid < i < |es| ==> es[i].key != key
  {
    KeyTrichotomy(es[mid].key, key);
    KeyAsymmetric(es[mid].key, key);
    forall i | 0 <= i < |es| && i != mid
      ensures if i < mid then !KeyLess(es[mid].key, es[i].key) else !KeyLess(es[i].key, es[mid].key)
    {
      KeysInOrder(es, if i < mid then i else mid, if i < mid then mid else i);
    }
  }
}
