/** The Bloom filter (src/coding/filter.cc), for any hash function, seeds and positive length. */
module Bloom {
  import Arithmetic
  import opened Bytes
  import opened InternalEntry
  import opened Order

  type Hash = (seq<byte>, nat) -> nat

  /** The bit of a filter byte that a hash value selects. */
  function Mask(k: nat): (m: byte)
    requires k < 8
  {
    (0x80 as byte) >> k
  }

  lemma MaskValues()
    ensures Mask(0) == 0x80 && Mask(1) == 0x40 && Mask(2) == 0x20 && Mask(3) == 0x10
    ensures Mask(4) == 0x08 && Mask(5) == 0x04 && Mask(6) == 0x02 && Mask(7) == 0x01
  {
  }

  predicate Has(b: byte, k: nat)
    requires k < 8
  {
    b & Mask(k) != 0
  }

  lemma SetBit(b: byte, i: nat, k: nat)
    requires i < 8 && k < 8
    ensures Has(b | Mask(i), k) <==> Has(b, k) || i == k
  {
    MaskValues();
  }

  lemma ZeroHasNone(k: nat)
    requires k < 8
    ensures !Has(0, k)
  {
  }

  // The byte of a filter that a hash value selects, and the bit in it.
  function Byte(h: nat, length: nat): (p: nat)
    requires length > 0
    ensures p < length
  {
    h / 8 % length
  }

  /** The bits of a filter are numbered from the first byte on, and the hash value selects the one with
      its number, counted around. */
  lemma BitNumber(h: nat, length: nat)
    requires length > 0
    ensures 8 * Byte(h, length) + h % 8 == h % (8 * length)
  {
    var q, k, m := h / 8, h / 8 / length, h / 8 % length;
    Arithmetic.Associate(8, length, k);
    Arithmetic.Distribute(8, length * k, m);
    Arithmetic.DivMod(h, 8 * length, k, 8 * m + h % 8);
  }

  /** Some key has some hash value that selects this bit. */
  ghost predicate Selected(keys: seq<seq<byte>>, seeds: seq<nat>, hash: Hash, length: nat, p: nat, k: nat)
    requires length > 0
  {
    exists key <- keys, s <- seeds :: Byte(hash(key, s), length) == p && hash(key, s) % 8 == k
  }

  /** That is: some key has some hash value whose number, counted around the filter, is that of the bit. */
  lemma SelectedByNumber(keys: seq<seq<byte>>, seeds: seq<nat>, hash: Hash, length: nat, p: nat, k: nat)
    requires p < length && k < 8
    ensures Selected(keys, seeds, hash, length, p, k)
            <==> exists key <- keys, s <- seeds :: hash(key, s) % (8 * length) == 8 * p + k
  {
    forall key <- keys, s <- seeds
      ensures hash(key, s) % (8 * length) == 8 * p + k
              <==> Byte(hash(key, s), length) == p && hash(key, s) % 8 == k
    {
      BitNumber(hash(key, s), length);
    }
  }

  function Keys(es: seq<Entry>): (keys: seq<seq<byte>>)
    ensures |keys| == |es| && forall i :: 0 <= i < |es| ==> keys[i] == es[i].key
  {
    seq(|es|, i requires 0 <= i < |es| => es[i].key)
  }

  /** Exactly the selected bits are set. */
  ghost predicate IsFilter(filter: seq<byte>, keys: seq<seq<byte>>, seeds: seq<nat>, hash: Hash) {
    && filter != []
    && forall p, k :: 0 <= p < |filter| && 0 <= k < 8 ==>
         (Has(filter[p], k) <==> Selected(keys, seeds, hash, |filter|, p, k))
  }

  // `filter_content[pos] |= 0x80 >> (hash_value % 8)`
  method SelectBit(filter: array<byte>, h: nat)
    requires filter.Length > 0
    modifies filter
    ensures forall p, k :: 0 <= p < filter.Length && 0 <= k < 8 ==>
              (Has(filter[p], k) <==> old(Has(filter[p], k)) || (p == Byte(h, filter.Length) && k == h % 8))
  {
    var pos := Byte(h, filter.Length);
    var before := filter[pos];
    filter[pos] := before | Mask(h % 8);
    forall k: nat | k < 8
      ensures Has(filter[pos], k) <==> Has(before, k) || k == h % 8
    {
      SetBit(before, h % 8, k);
    }
  }

  // The inner loop of CreateFilter.
  method AddKey(filter: array<byte>, key: seq<byte>, seeds: seq<nat>, hash: Hash)
    requires filter.Length > 0
    modifies filter
    ensures forall p, k :: 0 <= p < filter.Length && 0 <= k < 8 ==>
              (Has(filter[p], k) <==> old(Has(filter[p], k)) || Selected([key], seeds, hash, filter.Length, p, k))
  {
    for i := 0 to |seeds|
      invariant forall p, k :: 0 <= p < filter.Length && 0 <= k < 8 ==>
                  (Has(filter[p], k)
                   <==> old(Has(filter[p], k)) || Selected([key], seeds[..i], hash, filter.Length, p, k))
    {
      SelectBit(filter, hash(key, seeds[i]));
      assert seeds[..i + 1] == seeds[..i] + [seeds[i]];
    }
    assert seeds[..|seeds|] == seeds;
  }

  lemma KeyOfSlice(es: seq<Entry>, i: nat)
    requires i < |es| && Encodable(es[i])
    ensures HoldsEntry(Slices(es)[i]) && EntryKey(Slices(es)[i]) == es[i].key
    ensures Keys(es)[..i + 1] == Keys(es)[..i] + [es[i].key]
  {
    SlicesAt(es, i);
    EncodedReads(es[i]);
    KeysMore(es, i);
  }

  lemma EncodedReads(e: Entry)
    requires Encodable(e)
    ensures HoldsEntry(Encoded(e)) && EntryKey(Encoded(e)) == e.key
  {
    PointerReads(Encoded(e), e);
  }

  lemma KeysMore(es: seq<Entry>, i: nat)
    requires i < |es|
    ensures Keys(es)[..i + 1] == Keys(es)[..i] + [es[i].key]
  {
  }

  method CreateFilter(entrySet: seq<seq<byte>>, length: nat, seeds: seq<nat>, hash: Hash, ghost es: seq<Entry>)
    returns (filter: seq<byte>)
    requires length > 0 && entrySet == Slices(es) && forall e <- es :: Encodable(e)
    ensures |filter| == length && IsFilter(filter, Keys(es), seeds, hash)
  {
    var content := new byte[length](_ => 0);
    forall p: nat, k: nat | p < length && k < 8
      ensures !Has(content[p], k)
    {
      ZeroHasNone(k);
    }
    for i := 0 to |entrySet|
      invariant forall p, k :: 0 <= p < length && 0 <= k < 8 ==>
                  (Has(content[p], k) <==> Selected(Keys(es)[..i], seeds, hash, length, p, k))
    {
      KeyOfSlice(es, i);
      AddKey(content, EntryKey(entrySet[i]), seeds, hash);
    }
    assert Keys(es)[..|es|] == Keys(es);
    filter := content[..];
  }

  method ContainsKey(key: seq<byte>, filter: seq<byte>, seeds: seq<nat>, hash: Hash) returns (found: bool)
    requires filter != []
    ensures found <==> Passes(key, filter, seeds, hash)
  {
    for i := 0 to |seeds|
      invariant forall s <- seeds[..i] :: Has(filter[Byte(hash(key, s), |filter|)], hash(key, s) % 8)
    {
      var h := hash(key, seeds[i]);
      if filter[Byte(h, |filter|)] & Mask(h % 8) == 0 {
        return false;
      }
    }
    return true;
  }

  /** What ContainsKey tests. */
  predicate Passes(key: seq<byte>, filter: seq<byte>, seeds: seq<nat>, hash: Hash)
    requires filter != []
  {
    forall s <- seeds :: Has(filter[Byte(hash(key, s), |filter|)], hash(key, s) % 8)
  }

  /** A key passes exactly when each of its bits was selected by some key of the file: no false
      negatives, whatever the hash function. */
  lemma NoFalseNegatives(key: seq<byte>, filter: seq<byte>, keys: seq<seq<byte>>, seeds: seq<nat>, hash: Hash)
    requires IsFilter(filter, keys, seeds, hash)
    ensures Passes(key, filter, seeds, hash) <==>
              forall s <- seeds :: Selected(keys, seeds, hash, |filter|, Byte(hash(key, s), |filter|), hash(key, s) % 8)
    ensures key in keys ==> Passes(key, filter, seeds, hash)
  {
  }
}
