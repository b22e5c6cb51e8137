/** The memory table over the skip list (src/table/db_table.cc). Every write gets a fresh id and is
    added as a new entry; a read asks for the key with the largest id and takes the entry before it. */
module MemTable {
  import opened Bytes
  import opened Varint
  import opened InternalEntry
  import opened Order
  import opened Sorted
  import opened SkipList

  const MAX_ID: nat := U64 - 1

  // ---------------------------------------------------------------- what a table means

  /** The contents after a log of writes: the last write of a key wins, a deletion removes it. */
  function Contents(log: seq<Entry>): map<seq<byte>, seq<byte>> {
    if log == [] then map[]
    else
      var before, e := Contents(log[..|log| - 1]), log[|log| - 1];
      if e.op == Insert then before[e.key := e.value] else before - {e.key}
  }

  // The ids of a log count up from first.
  predicate Numbered(log: seq<Entry>, first: nat) {
    forall i :: 0 <= i < |log| ==> log[i].id == first + i
  }

  // The entry of the log a read of key has to find: the one with the greatest id.
  predicate IsLatest(log: seq<Entry>, key: seq<byte>, e: Entry) {
    e in log && e.key == key && forall x <- log :: x.key == key ==> x.id <= e.id
  }

  /** The newest entry of a key decides what the table contains for it. */
  lemma {:induction false} LatestDecides(log: seq<Entry>, first: nat, key: seq<byte>, e: Entry)
    requires Numbered(log, first) && IsLatest(log, key, e)
    ensures key in Contents(log) <==> e.op == Insert
    ensures e.op == Insert ==> Contents(log)[key] == e.value
  {
    var n := |log| - 1;
    if log[n].key == key {
      assert log[n].id <= e.id;
      var i :| 0 <= i < |log| && log[i] == e;
      assert i == n;
    } else {
      var i :| 0 <= i < |log| && log[i] == e;
      assert log[..n][i] == e;
      LatestDecides(log[..n], first, key, e);
    }
  }

  lemma {:induction false} UnwrittenIsAbsent(log: seq<Entry>, key: seq<byte>)
    requires forall x <- log :: x.key != key
    ensures key !in Contents(log)
  {
    if log != [] {
      UnwrittenIsAbsent(log[..|log| - 1], key);
      assert log[|log| - 1] in log;
    }
  }

  function Query(key: seq<byte>): Entry {
    Entry(key, MAX_ID, Delete, [])
  }

  // Between an entry of the key and the query there are only entries of the key.
  lemma BetweenIsSameKey(e: Entry, x: Entry)
    requires LessEq(e, x) && Less(x, Query(e.key))
    ensures x.key == e.key && x.id >= e.id
  {
    LessEqMeaning(e, x);
    KeyAsymmetric(e.key, x.key);
    KeyAsymmetric(x.key, e.key);
  }

  // An entry of the key is at or before the predecessor of the query.
  lemma NotAfterPredecessor(s: seq<Entry>, key: seq<byte>, x: Entry)
    requires IsSorted(s) && x in s && x.key == key && x.id < MAX_ID
    ensures var p := Rank(s, Query(key)); p > 0 && s[p - 1].key == key && x.id <= s[p - 1].id
  {
    var p := Rank(s, Query(key));
    RankSplits(s, Query(key));
    var i :| 0 <= i < |s| && s[i] == x;
    assert Less(x, Query(key));
    LessEqTotal(x, x);
    BetweenIsSameKey(x, s[p - 1]);
  }

  lemma SortedMember(log: seq<Entry>, x: Entry)
    ensures IsSorted(InsertAll(log)) && (x in InsertAll(log) <==> x in log)
  {
    InsertAllSorts(log);
    assert x in InsertAll(log) <==> x in multiset(InsertAll(log));
    assert x in log <==> x in multiset(log);
  }

  lemma LatestIsPredecessor(log: seq<Entry>, first: nat, x0: Entry)
    requires Numbered(log, first) && first + |log| <= MAX_ID && x0 in log
    ensures var s, p := InsertAll(log), Rank(InsertAll(log), Query(x0.key));
            p > 0 && IsLatest(log, x0.key, s[p - 1])
  {
    var s, p := InsertAll(log), Rank(InsertAll(log), Query(x0.key));
    forall x <- log | x.key == x0.key
      ensures p > 0 && s[p - 1].key == x0.key && x.id <= s[p - 1].id
    {
      var j :| 0 <= j < |log| && log[j] == x;
      SortedMember(log, x);
      NotAfterPredecessor(s, x0.key, x);
    }
    SortedMember(log, s[p - 1]);
  }

  /** The predecessor of (key, MAX_ID) is the newest entry of the key, if there is one. */
  lemma PredecessorIsLatest(log: seq<Entry>, first: nat, key: seq<byte>)
    requires Numbered(log, first) && first + |log| <= MAX_ID
    ensures var s, p := InsertAll(log), Rank(InsertAll(log), Query(key));
            if exists x <- log :: x.key == key
            then p > 0 && IsLatest(log, key, s[p - 1])
            else p == 0 || s[p - 1].key != key
  {
    var s, p := InsertAll(log), Rank(InsertAll(log), Query(key));
    if x0 :| x0 in log && x0.key == key {
      LatestIsPredecessor(log, first, x0);
    } else if p > 0 {
      SortedMember(log, s[p - 1]);
    }
  }

  lemma NextInLog(log: seq<Entry>, first: nat, e: Entry)
    requires Numbered(log, first) && e.id == first + |log|
    ensures Numbered(log + [e], first)
    ensures InsertAll(log + [e]) == InsertSorted(InsertAll(log), e)
  {
    assert (log + [e])[..|log|] == log;
  }

  /** The query sorts behind every entry of its key that can be stored. */
  lemma QueryIsLast(e: Entry)
    requires Encodable(e)
    ensures LessEq(e, Query(e.key)) && Query(e.key).id == 0xFFFF_FFFF_FFFF_FFFF
  {
    KeyIrreflexive(e.key);
  }

  // ---------------------------------------------------------------- TCTable

  class TCTable {
    var entryId: nat
    const table: SkipList
    ghost const first: nat
    ghost var log: seq<Entry>

    ghost predicate Valid()
      reads this, table, table.Links()
    {
      && table.Valid()
      && table.Entries() == InsertAll(log)
      && Numbered(log, first) && entryId == first + |log| <= MAX_ID
    }

    constructor (firstEntryId: nat)
      requires firstEntryId <= MAX_ID
      ensures Valid() && fresh(table) && fresh(table.Links() + {table.lastNode}) && log == [] && entryId == firstEntryId
    {
      entryId, first, log := firstEntryId, firstEntryId, [];
      table := new SkipList();
    }

    method Store(e: Entry, randomLevel: nat)
      requires table.Valid() && e.key != []
      requires randomLevel > table.levels ==> table.levels + 1 < MAX_LEVELS
      modifies table, table.lastNode, table.Links()
      ensures table.Valid() && fresh(table.Links() - old(table.Links()))
      ensures table.Entries() == InsertSorted(old(table.Entries()), e)
    {
      ghost var n := table.Insert(e, randomLevel);
    }

    // The common part of Insert and Delete.
    method Append(key: seq<byte>, op: OpType, value: seq<byte>, randomLevel: nat)
      requires Valid() && key != [] && entryId < MAX_ID
      requires randomLevel > table.levels ==> table.levels + 1 < MAX_LEVELS
      modifies this, table, table.lastNode, table.Links()
      ensures Valid() && fresh(table.Links() - old(table.Links()))
      ensures log == old(log) + [Entry(key, old(entryId), op, value)]
    {
      var e := Entry(key, entryId, op, value);
      NextInLog(log, first, e);
      log, entryId := log + [e], entryId + 1;
      Store(e, randomLevel);
    }

    method Insert(key: seq<byte>, value: seq<byte>, randomLevel: nat)
      requires Valid() && key != [] && entryId < MAX_ID
      requires randomLevel > table.levels ==> table.levels + 1 < MAX_LEVELS
      modifies this, table, table.lastNode, table.Links()
      ensures Valid() && fresh(table.Links() - old(table.Links())) && entryId == old(entryId) + 1
      ensures log == old(log) + [Entry(key, old(entryId), OpType.Insert, value)]
      ensures Contents(log) == old(Contents(log))[key := value]
    {
      Append(key, OpType.Insert, value, randomLevel);
      assert log[..|log| - 1] == old(log);
    }

    method Delete(key: seq<byte>, randomLevel: nat)
      requires Valid() && key != [] && entryId < MAX_ID
      requires randomLevel > table.levels ==> table.levels + 1 < MAX_LEVELS
      modifies this, table, table.lastNode, table.Links()
      ensures Valid() && fresh(table.Links() - old(table.Links())) && entryId == old(entryId) + 1
      ensures log == old(log) + [Entry(key, old(entryId), OpType.Delete, [])]
      ensures Contents(log) == old(Contents(log)) - {key}
    {
      Append(key, OpType.Delete, [], randomLevel);
      assert log[..|log| - 1] == old(log);
    }

    // What Get and ContainsKey do with the node the skip list returns.
    method FindInsert(key: seq<byte>) returns (found: bool, value: seq<byte>)
      requires Valid() && key != []
      ensures found <==> key in Contents(log)
      ensures found ==> value == Contents(log)[key]
      ensures !found ==> value == []
    {
      var node := table.Get(Query(key));
      PredecessorIsLatest(log, first, key);
      if exists x <- log :: x.key == key {
        LatestDecides(log, first, key, node.key);
      } else {
        UnwrittenIsAbsent(log, key);
      }
      if node != null && node.key.op == OpType.Insert {
        return true, node.key.value;
      }
      return false, [];
    }

    /** TCTable::Get: the value of the key, or an empty sequence. */
    method Get(key: seq<byte>) returns (value: seq<byte>)
      requires Valid() && key != []
      ensures value == if key in Contents(log) then Contents(log)[key] else []
    {
      var found;
      found, value := FindInsert(key);
    }

    /** TCTable::ContainsKey. */
    method ContainsKey(key: seq<byte>) returns (r: bool)
      requires Valid() && key != []
      ensures r <==> key in Contents(log)
    {
      var value;
      r, value := FindInsert(key);
    }
  }
}
