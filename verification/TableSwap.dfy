/** Concurrent TCDB::Insert calls: the swap of a full memory table under the read/write lock
    (src/table/db.cc:97-152, src/table/db_table.cc:67-87), as interleaved steps of any number of threads. */
module TableSwap {
  import Lock = RWLock
  import opened Allocator
  import MergeOutput
  import InternalEntry

  const LIMIT: nat := MergeOutput.LIMIT  // kDefaultSSTFileSize
  const BLOCK: nat := 4096               // kDefaultBlockSize
  const MIN_ENTRY: nat := 11             // the size of an insertion with an empty key and value

  /** Every insertion takes that much, and one takes no more. */
  lemma SmallestEntry(e: InternalEntry.Entry)
    ensures e.op == InternalEntry.Insert ==> |InternalEntry.Encoded(e)| >= MIN_ENTRY
    ensures e.op == InternalEntry.Insert && e.key == [] && e.value == [] ==> |InternalEntry.Encoded(e)| == MIN_ENTRY
  {
    if e.op == InternalEntry.Insert && e.key == [] && e.value == [] {
      InternalEntry.Small(0);
    }
  }

  // A memory table: the ids it has handed out, the ids linked into its skip list, and its memory.
  datatype Table = Table(first: nat, nextId: nat, entries: set<nat>, pool: Pool)

  function NewTable(first: nat): Table {
    Table(first, first, {}, Pool(1, BLOCK))
  }

  // Where a thread is in Insert.
  datatype Prog =
    | Start
    | AskWrite                        // saw a full table; in WriteLock, or inside before the second check
    | Checked                         // the second check is done, about to WriteUnlock
    | Failed                          // returned the error of the last compaction from inside the lock; later
                                      // calls of that thread count as another thread
    | AskRead                         // in ReadLock, or inside before TCTable::Insert
    | Allocated(table: nat)           // TCTable::Insert on that table has allocated the entry
    | Numbered(table: nat, id: nat)   // and has taken its id
    | Linked                          // the entry is in the skip list, about to ReadUnlock

  datatype State = State(lock: Lock.State, prog: seq<Prog>, tables: seq<Table>)

  datatype Label =
    | Check(i: nat)                   // the first, unlocked MemUsage check
    | LockStep(l: Lock.Label)
    | Swap(i: nat)                    // second check, and new table if it holds
    | Fail(i: nat)                    // second check holds, but the compaction of the last swap failed
    | Allocate(i: nat, size: nat)
    | TakeId(i: nat)
    | Link(i: nat)

  function Current(s: State): nat
    requires s.tables != []
  {
    |s.tables| - 1
  }

  predicate Full(s: State)
    requires s.tables != []
  {
    MemUsage(s.tables[Current(s)].pool, BLOCK) >= LIMIT
  }

  predicate WellSized(s: State) {
    |s.prog| == |s.lock.pc| && s.tables != []
  }

  // The lock steps a thread takes are those its program calls for.
  predicate Permitted(s: State, l: Lock.Label)
    requires WellSized(s)
  {
    l.i < |s.prog| &&
    match l
    case ReadLock(i) => s.prog[i] == AskRead
    case WriteLock(i) => s.prog[i] == AskWrite
    case ReadUnlock(i, _) => s.prog[i] == Linked
    case WriteUnlock(i, _) => s.prog[i] == Checked
    case _ => true
  }

  predicate Enabled(s: State, a: Label) {
    WellSized(s) &&
    match a
    case Check(i) => i < |s.prog| && s.prog[i] == Start
    case LockStep(l) => Lock.Enabled(s.lock, l) && Permitted(s, l)
    case Swap(i) => i < |s.prog| && s.prog[i] == AskWrite && s.lock.pc[i] == Lock.Writing
    case Fail(i) =>
      i < |s.prog| && s.prog[i] == AskWrite && s.lock.pc[i] == Lock.Writing && Full(s) && |s.tables| > 1
    case Allocate(i, size) =>
      i < |s.prog| && s.prog[i] == AskRead && s.lock.pc[i] == Lock.Reading && size >= MIN_ENTRY
    case TakeId(i) => i < |s.prog| && s.prog[i].Allocated? && s.prog[i].table < |s.tables|
    case Link(i) => i < |s.prog| && s.prog[i].Numbered? && s.prog[i].table < |s.tables|
  }

  function Apply(s: State, a: Label): State
    requires Enabled(s, a)
  {
    match a
    case Check(i) => s.(prog := s.prog[i := if Full(s) then AskWrite else AskRead])
    case LockStep(l) =>
      var prog := if l.WriteUnlock? then s.prog[l.i := AskRead]
                  else if l.ReadUnlock? then s.prog[l.i := Start]
                  else s.prog;
      State(Lock.Apply(s.lock, l), prog, s.tables)
    case Swap(i) =>
      var next := s.tables[Current(s)].nextId;
      State(s.lock, s.prog[i := Checked],
            if Full(s) then s.tables + [NewTable(next)] else s.tables)
    case Fail(i) => s.(prog := s.prog[i := Failed])
    case Allocate(i, size) =>
      var k := Current(s);
      var t := s.tables[k];
      State(s.lock, s.prog[i := Allocated(k)], s.tables[k := t.(pool := Take(t.pool, BLOCK, size))])
    case TakeId(i) =>
      var k := s.prog[i].table;
      var t := s.tables[k];
      State(s.lock, s.prog[i := Numbered(k, t.nextId)], s.tables[k := t.(nextId := t.nextId + 1)])
    case Link(i) =>
      var k := s.prog[i].table;
      var t := s.tables[k];
      State(s.lock, s.prog[i := Linked], s.tables[k := t.(entries := t.entries + {s.prog[i].id})])
  }

  // ---------------------------------------------------------------- the invariant

  // What holding a program point means for the lock.
  predicate Agree(p: Prog, pc: Lock.Pc) {
    match p
    case Start => pc == Lock.Idle
    case AskWrite => pc in {Lock.Idle, Lock.WriteWaiting, Lock.WriteGranted, Lock.Writing}
    case Checked => pc == Lock.Writing
    case Failed => pc == Lock.Writing
    case AskRead => pc in {Lock.Idle, Lock.ReadWaiting, Lock.ReadWoken, Lock.Reading}
    case _ => pc == Lock.Reading
  }

  /** The tables partition the ids in order. */
  predicate Ordered(tables: seq<Table>) {
    && (forall k :: 0 <= k < |tables| - 1 ==> tables[k].nextId == tables[k + 1].first)
    && (forall k :: 0 <= k < |tables| ==> tables[k].first <= tables[k].nextId)
    && (forall k, id | 0 <= k < |tables| && id in tables[k].entries :: tables[k].first <= id < tables[k].nextId)
  }

  /** A thread inside TCTable::Insert works on the current table, with an id of its own. */
  predicate Inside(prog: seq<Prog>, tables: seq<Table>)
    requires tables != []
  {
    var c := |tables| - 1;
    && (forall i :: 0 <= i < |prog| && prog[i].Allocated? ==> prog[i].table == c)
    && (forall i :: 0 <= i < |prog| && prog[i].Numbered? ==>
          && prog[i].table == c && prog[i].id !in tables[c].entries
          && tables[c].first <= prog[i].id < tables[c].nextId)
    && (forall i, j :: 0 <= i < j < |prog| && prog[i].Numbered? && prog[j].Numbered? ==> prog[i].id != prog[j].id)
  }

  // Thread i has taken id for table k and not linked it yet.
  predicate Pending(prog: seq<Prog>, i: nat, k: nat, id: nat) {
    i < |prog| && prog[i] == Numbered(k, id)
  }

  /** Every id handed out is linked, or a thread is about to link it to the current table. */
  ghost predicate Accounted(prog: seq<Prog>, tables: seq<Table>) {
    forall k, id :: 0 <= k < |tables| && tables[k].first <= id < tables[k].nextId && id !in tables[k].entries ==>
      k == |tables| - 1 && exists i :: Pending(prog, i, k, id)
  }

  ghost predicate TablesInv(prog: seq<Prog>, tables: seq<Table>) {
    tables != [] && Ordered(tables) && Inside(prog, tables) && Accounted(prog, tables)
  }

  predicate AllAgree(prog: seq<Prog>, pc: seq<Lock.Pc>) {
    |prog| == |pc| && forall i :: 0 <= i < |prog| ==> Agree(prog[i], pc[i])
  }

  ghost predicate Inv(s: State) {
    Lock.Inv(s.lock) && AllAgree(s.prog, s.lock.pc) && TablesInv(s.prog, s.tables)
  }

  function Init(n: nat, first: nat): State {
    State(Lock.Init(n), seq(n, _ => Start), [NewTable(first)])
  }

  lemma InitInv(n: nat, first: nat)
    ensures Inv(Init(n, first))
  {
    Lock.InitInv(n);
  }

  // While a thread is inside as a writer, no thread is inside TCTable::Insert.
  lemma WriterIsAlone(s: State, i: nat)
    requires Inv(s) && i < |s.prog| && s.lock.pc[i] == Lock.Writing
    ensures forall j :: 0 <= j < |s.prog| ==> s.lock.pc[j] != Lock.Reading
    ensures forall j :: 0 <= j < |s.prog| && j != i ==> s.lock.pc[j] != Lock.Writing
  {
    Lock.CountOf(s.lock.pc, i);
    forall j | 0 <= j < |s.prog|
      ensures s.lock.pc[j] != Lock.Reading
      ensures j != i ==> s.lock.pc[j] != Lock.Writing
    {
      Lock.CountOf(s.lock.pc, j);
      if j != i && s.lock.pc[j] == Lock.Writing {
        Lock.TwoHolders(s.lock.pc, i, j);
      }
    }
  }

  // A thread that is not inside TCTable::Insert moves.
  lemma OutsideMove(prog: seq<Prog>, tables: seq<Table>, i: nat, p: Prog)
    requires TablesInv(prog, tables) && i < |prog|
    requires !prog[i].Numbered? && !p.Numbered? && !p.Allocated?
    ensures TablesInv(prog[i := p], tables)
  {
    forall j, k, id | Pending(prog, j, k, id)
      ensures Pending(prog[i := p], j, k, id)
    {
    }
  }

  lemma SwapTables(prog: seq<Prog>, tables: seq<Table>)
    requires TablesInv(prog, tables)
    requires forall j :: 0 <= j < |prog| ==> !prog[j].Numbered? && !prog[j].Allocated?
    ensures var next := tables[|tables| - 1].nextId; TablesInv(prog, tables + [NewTable(next)])
  {
    var next := tables[|tables| - 1].nextId;
    var all := tables + [NewTable(next)];
    assert Ordered(all);
    assert forall j: nat, k: nat, id: nat :: !Pending(prog, j, k, id);
  }

  lemma AllocateStep(prog: seq<Prog>, tables: seq<Table>, i: nat, size: nat)
    requires TablesInv(prog, tables) && i < |prog| && prog[i] == AskRead
    ensures var c := |tables| - 1;
            TablesInv(prog[i := Allocated(c)], tables[c := tables[c].(pool := Take(tables[c].pool, BLOCK, size))])
  {
    forall j, k, id | Pending(prog, j, k, id)
      ensures Pending(prog[i := Allocated(|tables| - 1)], j, k, id)
    {
    }
  }

  lemma TakeIdStep(prog: seq<Prog>, tables: seq<Table>, i: nat)
    requires TablesInv(prog, tables) && i < |prog| && prog[i].Allocated?
    ensures prog[i].table == |tables| - 1
    ensures var c := |tables| - 1;
            TablesInv(prog[i := Numbered(c, tables[c].nextId)], tables[c := tables[c].(nextId := tables[c].nextId + 1)])
  {
    var c := |tables| - 1;
    var next := prog[i := Numbered(c, tables[c].nextId)];
    assert Pending(next, i, c, tables[c].nextId);
    forall j, k, id | Pending(prog, j, k, id)
      ensures Pending(next, j, k, id)
    {
    }
  }

  lemma LinkStep(prog: seq<Prog>, tables: seq<Table>, i: nat)
    requires TablesInv(prog, tables) && i < |prog| && prog[i].Numbered?
    ensures prog[i].table == |tables| - 1
    ensures var c := |tables| - 1;
            TablesInv(prog[i := Linked], tables[c := tables[c].(entries := tables[c].entries + {prog[i].id})])
  {
    var next := prog[i := Linked];
    forall j, k, id | Pending(prog, j, k, id) && j != i
      ensures Pending(next, j, k, id)
    {
    }
  }

  // A lock step moves the other threads at most along their wait.
  lemma LockStepAgrees(s: State, l: Lock.Label)
    requires Inv(s) && Enabled(s, LockStep(l))
    ensures AllAgree(Apply(s, LockStep(l)).prog, Apply(s, LockStep(l)).lock.pc)
  {
    assert Agree(s.prog[l.i], s.lock.pc[l.i]);
  }

  lemma LockStepKeepsInv(s: State, l: Lock.Label)
    requires Inv(s) && Enabled(s, LockStep(l))
    ensures Inv(Apply(s, LockStep(l)))
  {
    Lock.StepKeepsInv(s.lock, l);
    LockStepAgrees(s, l);
    if l.WriteUnlock? {
      OutsideMove(s.prog, s.tables, l.i, AskRead);
    } else if l.ReadUnlock? {
      OutsideMove(s.prog, s.tables, l.i, Start);
    }
  }

  lemma SwapKeepsInv(s: State, i: nat)
    requires Inv(s) && Enabled(s, Swap(i))
    ensures Inv(Apply(s, Swap(i)))
  {
    WriterIsAlone(s, i);
    OutsideMove(s.prog, s.tables, i, Checked);
    if Full(s) {
      forall j | 0 <= j < |s.prog|
        ensures !s.prog[j].Numbered? && !s.prog[j].Allocated?
      {
        assert Agree(s.prog[j], s.lock.pc[j]);
      }
      SwapTables(s.prog[i := Checked], s.tables);
    }
  }

  lemma OutsideStepKeepsInv(s: State, a: Label)
    requires Inv(s) && Enabled(s, a) && (a.Check? || a.Fail?)
    ensures Inv(Apply(s, a))
  {
    assert Agree(s.prog[a.i], s.lock.pc[a.i]);
    OutsideMove(s.prog, s.tables, a.i, if a.Fail? then Failed else if Full(s) then AskWrite else AskRead);
  }

  lemma AgreeMove(prog: seq<Prog>, pc: seq<Lock.Pc>, i: nat, p: Prog)
    requires AllAgree(prog, pc) && i < |prog| && Agree(p, pc[i])
    ensures AllAgree(prog[i := p], pc)
  {
  }

  // A step that leaves the lock alone.
  lemma Settled(s: State, s': State)
    requires Inv(s) && s'.lock == s.lock && AllAgree(s'.prog, s.lock.pc) && TablesInv(s'.prog, s'.tables)
    ensures Inv(s')
  {
  }

  lemma AllocateKeepsInv(s: State, i: nat, size: nat)
    requires Inv(s) && Enabled(s, Allocate(i, size))
    ensures Inv(Apply(s, Allocate(i, size)))
  {
    var c := Current(s);
    var t := s.tables[c];
    var prog, tables := s.prog[i := Allocated(c)], s.tables[c := t.(pool := Take(t.pool, BLOCK, size))];
    assert Apply(s, Allocate(i, size)) == State(s.lock, prog, tables);
    AllocateStep(s.prog, s.tables, i, size);
    AgreeMove(s.prog, s.lock.pc, i, Allocated(c));
    Settled(s, State(s.lock, prog, tables));
  }

  lemma TakeIdKeepsInv(s: State, i: nat)
    requires Inv(s) && Enabled(s, TakeId(i))
    ensures Inv(Apply(s, TakeId(i)))
  {
    assert Agree(s.prog[i], s.lock.pc[i]);
    TakeIdStep(s.prog, s.tables, i);
    var c := Current(s);
    var t := s.tables[c];
    var prog, tables := s.prog[i := Numbered(c, t.nextId)], s.tables[c := t.(nextId := t.nextId + 1)];
    assert Apply(s, TakeId(i)) == State(s.lock, prog, tables);
    AgreeMove(s.prog, s.lock.pc, i, Numbered(c, t.nextId));
    Settled(s, State(s.lock, prog, tables));
  }

  /** The step that adds an entry adds it to the current table. */
  lemma LinkKeepsInv(s: State, i: nat)
    requires Inv(s) && Enabled(s, Link(i))
    ensures Inv(Apply(s, Link(i)))
    ensures s.prog[i].table == Current(s)
  {
    assert Agree(s.prog[i], s.lock.pc[i]);
    LinkStep(s.prog, s.tables, i);
    AgreeMove(s.prog, s.lock.pc, i, Linked);
    Settled(s, Apply(s, Link(i)));
  }

  /** Every step of every thread keeps the invariant. */
  lemma StepKeepsInv(s: State, a: Label)
    requires Inv(s) && Enabled(s, a)
    ensures Inv(Apply(s, a))
  {
    if a.LockStep? {
      LockStepKeepsInv(s, a.l);
    } else if a.Swap? {
      SwapKeepsInv(s, a.i);
    } else if a.Check? || a.Fail? {
      OutsideStepKeepsInv(s, a);
    } else if a.Allocate? {
      AllocateKeepsInv(s, a.i, a.size);
    } else if a.TakeId? {
      TakeIdKeepsInv(s, a.i);
    } else {
      LinkKeepsInv(s, a.i);
    }
  }

  // ---------------------------------------------------------------- all runs

  predicate Run(s: State, labels: seq<Label>, t: State)
    decreases |labels|
  {
    if labels == [] then s == t
    else Enabled(s, labels[0]) && Run(Apply(s, labels[0]), labels[1..], t)
  }

  lemma {:induction false} RunKeepsInv(s: State, labels: seq<Label>, t: State)
    requires Inv(s) && Run(s, labels, t)
    ensures Inv(t)
    decreases |labels|
  {
    if labels != [] {
      StepKeepsInv(s, labels[0]);
      RunKeepsInv(Apply(s, labels[0]), labels[1..], t);
    }
  }

  lemma {:induction false} FirstsIncrease(tables: seq<Table>, k: nat, m: nat)
    requires Ordered(tables) && k < m < |tables|
    ensures tables[k].nextId <= tables[m].first
    decreases m
  {
    if k < m - 1 {
      FirstsIncrease(tables, k, m - 1);
    }
  }

  /** In every interleaving, every id of an older table is smaller than every id of a newer one. */
  lemma OlderIdsAreSmaller(n: nat, first: nat, labels: seq<Label>, t: State, k: nat, m: nat, x: nat, y: nat)
    requires Run(Init(n, first), labels, t)
    requires k < m < |t.tables| && x in t.tables[k].entries && y in t.tables[m].entries
    ensures x < y
  {
    InitInv(n, first);
    RunKeepsInv(Init(n, first), labels, t);
    FirstsIncrease(t.tables, k, m);
  }

  /** In every interleaving, a table that has been swapped out is complete: it holds exactly the ids
      it handed out, so no insert is lost by a swap. */
  lemma SwappedTableIsComplete(n: nat, first: nat, labels: seq<Label>, t: State, k: nat, id: nat)
    requires Run(Init(n, first), labels, t) && k + 1 < |t.tables|
    ensures id in t.tables[k].entries <==> t.tables[k].first <= id < t.tables[k].nextId
  {
    InitInv(n, first);
    RunKeepsInv(Init(n, first), labels, t);
    assert k != |t.tables| - 1;
  }

  /** And it never changes again. */
  lemma {:induction false} SwappedTableIsFrozen(s: State, labels: seq<Label>, t: State, k: nat)
    requires Inv(s) && Run(s, labels, t) && k + 1 < |s.tables|
    ensures k + 1 < |t.tables| && t.tables[k] == s.tables[k]
    decreases |labels|
  {
    if labels != [] {
      StepKeepsInv(s, labels[0]);
      SwappedTableIsFrozen(Apply(s, labels[0]), labels[1..], t, k);
    }
  }

  // ---------------------------------------------------------------- only full tables are swapped

  /** Every table but the current one uses as much memory as the limit. A thread that has made the
      second check leaves a current table below it, and one that has left with the error of the last
      compaction a full one, with an older table behind it. */
  predicate Fullness(prog: seq<Prog>, tables: seq<Table>)
    requires tables != []
  {
    var c := |tables| - 1;
    && (forall k :: 0 <= k < c ==> MemUsage(tables[k].pool, BLOCK) >= LIMIT)
    && (forall i :: 0 <= i < |prog| && prog[i] == Checked ==> MemUsage(tables[c].pool, BLOCK) < LIMIT)
    && (forall i :: 0 <= i < |prog| && prog[i] == Failed ==> c > 0 && MemUsage(tables[c].pool, BLOCK) >= LIMIT)
  }

  // With a thread at Checked or Failed, which has the write lock, no other thread is inside.
  lemma InsideAlone(s: State, i: nat, j: nat)
    requires Inv(s) && i < |s.prog| && j < |s.prog| && i != j && (s.prog[i] == Checked || s.prog[i] == Failed)
    ensures s.lock.pc[j] != Lock.Reading && s.lock.pc[j] != Lock.Writing
    ensures s.prog[j] == Start || s.prog[j] == AskWrite || s.prog[j] == AskRead
  {
    assert Agree(s.prog[i], s.lock.pc[i]) && Agree(s.prog[j], s.lock.pc[j]);
    WriterIsAlone(s, i);
  }

  // The step of a thread that is inside a table: no thread is at Checked or Failed.
  lemma InsideStepKeepsFullness(s: State, a: Label)
    requires Inv(s) && Fullness(s.prog, s.tables) && Enabled(s, a) && (a.Allocate? || a.TakeId? || a.Link?)
    ensures Fullness(Apply(s, a).prog, Apply(s, a).tables)
  {
    assert Agree(s.prog[a.i], s.lock.pc[a.i]);
    forall j | 0 <= j < |s.prog| && (s.prog[j] == Checked || s.prog[j] == Failed)
      ensures false
    {
      if j == a.i {
        assert false;
      } else {
        InsideAlone(s, j, a.i);
      }
    }
  }

  lemma SwapKeepsFullness(s: State, i: nat)
    requires Inv(s) && Fullness(s.prog, s.tables) && Enabled(s, Swap(i))
    ensures Fullness(Apply(s, Swap(i)).prog, Apply(s, Swap(i)).tables)
  {
    forall j | 0 <= j < |s.prog| && j != i && (s.prog[j] == Checked || s.prog[j] == Failed)
      ensures false
    {
      InsideAlone(s, j, i);
    }
  }

  lemma StepKeepsFullness(s: State, a: Label)
    requires Inv(s) && Fullness(s.prog, s.tables) && Enabled(s, a)
    ensures Inv(Apply(s, a)) && Fullness(Apply(s, a).prog, Apply(s, a).tables)
  {
    StepKeepsInv(s, a);
    if a.Swap? {
      SwapKeepsFullness(s, a.i);
    } else if a.Allocate? || a.TakeId? || a.Link? {
      InsideStepKeepsFullness(s, a);
    } else {
      OutsideStepKeepsFullness(s, a);
    }
  }

  lemma OutsideStepKeepsFullness(s: State, a: Label)
    requires Inv(s) && Fullness(s.prog, s.tables) && Enabled(s, a) && (a.Check? || a.Fail? || a.LockStep?)
    ensures Fullness(Apply(s, a).prog, Apply(s, a).tables)
  {
  }

  lemma {:induction false} RunKeepsFullness(s: State, labels: seq<Label>, t: State)
    requires Inv(s) && Fullness(s.prog, s.tables) && Run(s, labels, t)
    ensures Inv(t) && Fullness(t.prog, t.tables)
    decreases |labels|
  {
    if labels != [] {
      StepKeepsFullness(s, labels[0]);
      RunKeepsFullness(Apply(s, labels[0]), labels[1..], t);
    }
  }

  /** In every reachable state: only full tables have been swapped out, a thread leaves the second
      check with a table below the limit, and it fails only on a full one with an older one behind it. */
  lemma OnlyFullTablesAreSwapped(n: nat, first: nat, labels: seq<Label>, t: State)
    requires Run(Init(n, first), labels, t)
    ensures t.tables != []
    ensures forall k :: 0 <= k < |t.tables| - 1 ==> MemUsage(t.tables[k].pool, BLOCK) >= LIMIT
    ensures forall i :: 0 <= i < |t.prog| && t.prog[i] == Checked ==>
              MemUsage(t.tables[|t.tables| - 1].pool, BLOCK) < LIMIT
    ensures forall i :: 0 <= i < |t.prog| && t.prog[i] == Failed ==>
              |t.tables| > 1 && MemUsage(t.tables[|t.tables| - 1].pool, BLOCK) >= LIMIT
  {
    InitInv(n, first);
    RunKeepsFullness(Init(n, first), labels, t);
  }

  // A thread that left with an error from inside the write lock never gives it back.
  lemma FailedStep(s: State, a: Label, i: nat)
    requires Inv(s) && Enabled(s, a) && i < |s.prog| && s.prog[i] == Failed
    ensures Apply(s, a).tables == s.tables
    ensures |Apply(s, a).prog| == |s.prog| && Apply(s, a).prog[i] == Failed
  {
    assert Agree(s.prog[i], s.lock.pc[i]);
    WriterIsAlone(s, i);
    if a.LockStep? {
      assert Agree(s.prog[a.l.i], s.lock.pc[a.l.i]);
    } else {
      assert Agree(s.prog[a.i], s.lock.pc[a.i]);
    }
  }

  /** After one failed compaction no insert ever completes again: whatever the threads do, no table
      changes from then on. */
  lemma {:induction false} FailureStopsInserts(s: State, labels: seq<Label>, t: State, i: nat)
    requires Inv(s) && Run(s, labels, t) && i < |s.prog| && s.prog[i] == Failed
    ensures t.tables == s.tables
    decreases |labels|
  {
    if labels != [] {
      StepKeepsInv(s, labels[0]);
      FailedStep(s, labels[0], i);
      FailureStopsInserts(Apply(s, labels[0]), labels[1..], t, i);
    }
  }

  // ---------------------------------------------------------------- progress

  predicate NoneFailed(s: State) {
    forall i :: 0 <= i < |s.prog| ==> s.prog[i] != Failed
  }

  predicate AllDone(s: State) {
    forall i :: 0 <= i < |s.prog| ==> s.prog[i] == Start
  }

  // How far a thread is from the end of its call.
  function Distance(p: Prog, pc: Lock.Pc): nat {
    match p
    case Start => 0
    case AskWrite => (
      match pc
      case WriteWaiting => 11
      case WriteGranted => 10
      case Writing => 9
      case _ => 12)
    case Checked => 8
    case AskRead => (
      match pc
      case ReadWaiting => 6
      case ReadWoken => 5
      case Reading => 4
      case _ => 7)
    case Allocated(_) => 3
    case Numbered(_, _) => 2
    case Linked => 1
    case Failed => 0
  }

  function Total(prog: seq<Prog>, pc: seq<Lock.Pc>): nat
    requires |prog| == |pc|
  {
    if prog == [] then 0
    else Total(prog[..|prog| - 1], pc[..|pc| - 1]) + Distance(prog[|prog| - 1], pc[|pc| - 1])
  }

  lemma {:induction false} TotalFalls(prog: seq<Prog>, pc: seq<Lock.Pc>, prog': seq<Prog>, pc': seq<Lock.Pc>, i: nat)
    requires |prog| == |pc| == |prog'| == |pc'|
    requires forall j :: 0 <= j < |prog| ==> Distance(prog'[j], pc'[j]) <= Distance(prog[j], pc[j])
    ensures Total(prog', pc') <= Total(prog, pc)
    ensures i < |prog| && Distance(prog'[i], pc'[i]) < Distance(prog[i], pc[i]) ==> Total(prog', pc') < Total(prog, pc)
  {
    if prog != [] {
      var n := |prog| - 1;
      TotalFalls(prog[..n], pc[..n], prog'[..n], pc'[..n], i);
    }
  }

  // A step that brings its thread nearer to the end of its call and no thread further from it.
  predicate Advances(s: State, a: Label, i: nat) {
    && Enabled(s, a) && !a.Fail? && !a.Check?
    && var t := Apply(s, a);
    && i < |s.prog| == |t.prog| == |t.lock.pc|
    && (forall j :: 0 <= j < |s.prog| ==> Distance(t.prog[j], t.lock.pc[j]) <= Distance(s.prog[j], s.lock.pc[j]))
    && Distance(t.prog[i], t.lock.pc[i]) < Distance(s.prog[i], s.lock.pc[i])
    && NoneFailed(t)
  }

  // A thread to wake, if one waits.
  lemma Wakeable(pc: seq<Lock.Pc>) returns (wake: nat)
    ensures Lock.CanWake(pc, wake)
  {
    wake := 0;
    if Lock.WriteWaiting in pc {
      wake :| wake < |pc| && pc[wake] == Lock.WriteWaiting;
    }
  }

  // The writer inside, or about to be, can move.
  lemma WriterMoves(s: State, i: nat) returns (a: Label)
    requires Inv(s) && NoneFailed(s) && i < |s.prog| && s.lock.pc[i] in {Lock.Writing, Lock.WriteGranted}
    ensures Advances(s, a, i)
  {
    assert Agree(s.prog[i], s.lock.pc[i]);
    if s.lock.pc[i] == Lock.WriteGranted {
      a := LockStep(Lock.WriteResume(i));
    } else if s.prog[i] == AskWrite {
      a := Swap(i);
    } else {
      var wake := Wakeable(s.lock.pc[i := Lock.Idle]);
      a := LockStep(Lock.WriteUnlock(i, wake));
      UnlockAdvances(s, i, wake);
    }
  }

  lemma UnlockAdvances(s: State, i: nat, wake: nat)
    requires Inv(s) && NoneFailed(s) && i < |s.prog| && s.lock.pc[i] == Lock.Writing && s.prog[i] == Checked
    requires Lock.CanWake(s.lock.pc[i := Lock.Idle], wake)
    ensures Advances(s, LockStep(Lock.WriteUnlock(i, wake)), i)
  {
    forall j | 0 <= j < |s.prog|
      ensures Agree(s.prog[j], s.lock.pc[j])
    {
    }
  }

  // A reader inside can move.
  lemma ReaderMoves(s: State, i: nat) returns (a: Label)
    requires Inv(s) && NoneFailed(s) && i < |s.prog| && s.lock.pc[i] == Lock.Reading
    ensures Advances(s, a, i)
  {
    assert Agree(s.prog[i], s.lock.pc[i]);
    if s.prog[i] == AskRead {
      a := Allocate(i, MIN_ENTRY);
    } else if s.prog[i].Allocated? {
      a := TakeId(i);
    } else if s.prog[i].Numbered? {
      a := Link(i);
    } else {
      var wake := Wakeable(s.lock.pc[i := Lock.Idle]);
      a := LockStep(Lock.ReadUnlock(i, wake));
      ReadUnlockAdvances(s, i, wake);
    }
  }

  lemma ReadUnlockAdvances(s: State, i: nat, wake: nat)
    requires Inv(s) && NoneFailed(s) && i < |s.prog| && s.lock.pc[i] == Lock.Reading && s.prog[i] == Linked
    requires Lock.CanWake(s.lock.pc[i := Lock.Idle], wake)
    ensures Advances(s, LockStep(Lock.ReadUnlock(i, wake)), i)
  {
    forall j | 0 <= j < |s.prog|
      ensures Agree(s.prog[j], s.lock.pc[j])
    {
    }
  }

  // With nobody inside, whoever has called can enter.
  lemma OutsiderMoves(s: State, i: nat) returns (a: Label)
    requires Inv(s) && NoneFailed(s) && i < |s.prog| && s.prog[i] != Start
    requires forall j :: 0 <= j < |s.prog| ==> s.lock.pc[j] !in {Lock.Writing, Lock.WriteGranted, Lock.Reading}
    ensures Advances(s, a, i)
  {
    LockIsFree(s);
    assert Agree(s.prog[i], s.lock.pc[i]);
    Lock.CountOf(s.lock.pc, i);
    if s.prog[i] == AskWrite {
      a := LockStep(Lock.WriteLock(i));
    } else if s.lock.pc[i] == Lock.Idle {
      a := LockStep(Lock.ReadLock(i));
    } else {
      a := LockStep(Lock.ReadRetest(i));
    }
  }

  lemma LockIsFree(s: State)
    requires Inv(s)
    requires forall j :: 0 <= j < |s.prog| ==> s.lock.pc[j] !in {Lock.Writing, Lock.WriteGranted, Lock.Reading}
    ensures s.lock.readCount == 0 && s.lock.writeCount == 0
    ensures Lock.Count(s.lock, Lock.WriteWaiting) == 0 && Lock.Count(s.lock, Lock.ReadWaiting) == 0
  {
    forall p | p in {Lock.Writing, Lock.WriteGranted, Lock.Reading}
      ensures Lock.Count(s.lock, p) == 0
    {
      assert p !in s.lock.pc;
      assert p !in multiset(s.lock.pc);
    }
  }

  /** Without a failure, some thread in the middle of a call can always go on. */
  lemma SomeThreadMoves(s: State) returns (a: Label, i: nat)
    requires Inv(s) && NoneFailed(s) && !AllDone(s)
    ensures Advances(s, a, i)
  {
    if k: nat :| k < |s.prog| && s.lock.pc[k] in {Lock.Writing, Lock.WriteGranted} {
      i := k;
      a := WriterMoves(s, i);
    } else if k: nat :| k < |s.prog| && s.lock.pc[k] == Lock.Reading {
      i := k;
      a := ReaderMoves(s, i);
    } else {
      i :| i < |s.prog| && s.prog[i] != Start;
      a := OutsiderMoves(s, i);
    }
  }

  /** Then all calls that are under way can be brought to their end. */
  lemma {:induction false} CallsCanComplete(s: State) returns (labels: seq<Label>, t: State)
    requires Inv(s) && NoneFailed(s)
    ensures Run(s, labels, t) && AllDone(t)
    decreases Total(s.prog, s.lock.pc)
  {
    if AllDone(s) {
      labels, t := [], s;
    } else {
      var a, i := SomeThreadMoves(s);
      var next := Apply(s, a);
      StepKeepsInv(s, a);
      TotalFalls(s.prog, s.lock.pc, next.prog, next.lock.pc, i);
      var more;
      more, t := CallsCanComplete(next);
      labels := [a] + more;
    }
  }

  // No call is under way: every thread is outside Insert, or has returned the error.
  predicate Quiet(s: State) {
    forall i :: 0 <= i < |s.prog| ==> s.prog[i] == Start || s.prog[i] == Failed
  }

  // A continuation of a run in which all calls under way return.
  predicate Returns(s: State, more: seq<Label>, t: State) {
    Run(s, more, t) && Quiet(t)
  }

  // With thread i gone with the write lock, a call of another thread can take steps of the lock only.
  lemma StuckStep(s: State, a: Label, i: nat, j: nat)
    requires Inv(s) && Enabled(s, a) && i < |s.prog| && s.prog[i] == Failed
    requires j < |s.prog| && s.prog[j] != Start && s.prog[j] != Failed
    ensures |Apply(s, a).prog| == |s.prog| && Apply(s, a).prog[i] == Failed && Apply(s, a).prog[j] == s.prog[j]
  {
    FailedStep(s, a, i);
    assert Agree(s.prog[i], s.lock.pc[i]) && Agree(s.prog[j], s.lock.pc[j]);
    WriterIsAlone(s, i);
  }

  /** Once a compaction has failed, every other call that is under way, or gets under way later, is
      stuck where it is: on every run it stays at the same point of Insert. */
  lemma {:induction false} StuckForGood(s: State, labels: seq<Label>, t: State, i: nat, j: nat)
    requires Inv(s) && Run(s, labels, t) && i < |s.prog| && s.prog[i] == Failed
    requires j < |s.prog| && s.prog[j] != Start && s.prog[j] != Failed
    ensures |t.prog| == |s.prog| && t.prog[j] == s.prog[j]
    decreases |labels|
  {
    if labels != [] {
      StepKeepsInv(s, labels[0]);
      StuckStep(s, labels[0], i, j);
      StuckForGood(Apply(s, labels[0]), labels[1..], t, i, j);
    }
  }

  /** In every reachable state: the calls under way can all still return, in some continuation of the
      run, if and only if no thread has returned the error of a failed compaction, or no call is
      under way anyway. */
  lemma CallsReturnUnlessFailed(n: nat, first: nat, labels: seq<Label>, s: State)
    requires Run(Init(n, first), labels, s)
    ensures (exists more, t :: Returns(s, more, t)) <==> NoneFailed(s) || Quiet(s)
  {
    InitInv(n, first);
    RunKeepsInv(Init(n, first), labels, s);
    if Quiet(s) {
      assert Returns(s, [], s);
    } else if NoneFailed(s) {
      var more, t := CallsCanComplete(s);
      assert Returns(s, more, t);
    } else {
      var i :| 0 <= i < |s.prog| && s.prog[i] == Failed;
      var j :| 0 <= j < |s.prog| && s.prog[j] != Start && s.prog[j] != Failed;
      forall more, t | Returns(s, more, t)
        ensures false
      {
        StuckForGood(s, more, t, i, j);
      }
    }
  }

  // ---------------------------------------------------------------- a run that fails

  // The state of one thread.
  function Alone(readers: int, writers: int, pc: Lock.Pc, p: Prog, tables: seq<Table>): State {
    State(Lock.State(readers, writers, [pc]), [p], tables)
  }

  // A step of the only thread.
  predicate Steps(s: State, a: Label, t: State) {
    Enabled(s, a) && Apply(s, a) == t
  }

  lemma {:induction false} Append(s: State, labels: seq<Label>, t: State, more: seq<Label>, u: State)
    requires Run(s, labels, t) && Run(t, more, u)
    ensures Run(s, labels + more, u)
    decreases |labels|
  {
    if labels == [] {
      assert labels + more == more;
    } else {
      assert (labels + more)[1..] == labels[1..] + more;
      Append(Apply(s, labels[0]), labels[1..], t, more, u);
    }
  }

  lemma OneStep(s: State, labels: seq<Label>, t: State, a: Label, u: State)
    requires Run(s, labels, t) && Steps(t, a, u)
    ensures Run(s, labels + [a], u)
  {
    assert [a][1..] == [];
    Append(s, labels, t, [a], u);
  }

  // The last table once an entry has taken its space, its id, and its place in the skip list.
  function Spaced(t: Table, size: nat): Table {
    t.(pool := Take(t.pool, BLOCK, size))
  }

  function Claimed(t: Table, size: nat): Table {
    Spaced(t, size).(nextId := t.nextId + 1)
  }

  function Grown(t: Table, size: nat): Table {
    Claimed(t, size).(entries := t.entries + {t.nextId})
  }

  // TCTable::Insert under the read lock, by the only thread, up to the link into the table.
  lemma ClaimRun(init: seq<Table>, t: Table, size: nat) returns (labels: seq<Label>)
    requires size >= MIN_ENTRY
    ensures Run(Alone(0, 0, Lock.Idle, AskRead, init + [t]), labels,
      Alone(1, 0, Lock.Reading, Numbered(|init|, t.nextId), init + [Claimed(t, size)]))
  {
    var c := |init|;
    var s := Alone(0, 0, Lock.Idle, AskRead, init + [t]);
    LastUpdate(init, t, Spaced(t, size));
    LastUpdate(init, Spaced(t, size), Claimed(t, size));
    labels := [];
    OneStep(s, labels, s, LockStep(Lock.ReadLock(0)), Alone(1, 0, Lock.Reading, AskRead, init + [t]));
    labels := labels + [LockStep(Lock.ReadLock(0))];
    OneStep(s, labels, Alone(1, 0, Lock.Reading, AskRead, init + [t]), Allocate(0, size),
            Alone(1, 0, Lock.Reading, Allocated(c), init + [Spaced(t, size)]));
    labels := labels + [Allocate(0, size)];
    OneStep(s, labels, Alone(1, 0, Lock.Reading, Allocated(c), init + [Spaced(t, size)]), TakeId(0),
            Alone(1, 0, Lock.Reading, Numbered(c, t.nextId), init + [Claimed(t, size)]));
    labels := labels + [TakeId(0)];
  }

  // The whole of it.
  lemma InsertRun(init: seq<Table>, t: Table, size: nat) returns (labels: seq<Label>)
    requires size >= MIN_ENTRY
    ensures Run(Alone(0, 0, Lock.Idle, AskRead, init + [t]), labels,
      Alone(0, 0, Lock.Idle, Start, init + [Grown(t, size)]))
  {
    var s := Alone(0, 0, Lock.Idle, AskRead, init + [t]);
    LastUpdate(init, Claimed(t, size), Grown(t, size));
    labels := ClaimRun(init, t, size);
    OneStep(s, labels, Alone(1, 0, Lock.Reading, Numbered(|init|, t.nextId), init + [Claimed(t, size)]), Link(0),
            Alone(1, 0, Lock.Reading, Linked, init + [Grown(t, size)]));
    labels := labels + [Link(0)];
    OneStep(s, labels, Alone(1, 0, Lock.Reading, Linked, init + [Grown(t, size)]),
            LockStep(Lock.ReadUnlock(0, 0)), Alone(0, 0, Lock.Idle, Start, init + [Grown(t, size)]));
    labels := labels + [LockStep(Lock.ReadUnlock(0, 0))];
  }

  lemma LastUpdate(init: seq<Table>, t: Table, t': Table)
    ensures (init + [t])[|init| := t'] == init + [t'] && (init + [t])[|init|] == t
  {
  }

  // A table of `count` blocks, that is with count - 1 large entries.
  predicate Holds(t: Table, count: nat) {
    t.pool == Pool(count, BLOCK)
  }

  const LARGE: nat := 4000  // more than half a block, so each entry gets a block of its own

  // Calls that insert large entries until the table is full.
  lemma {:induction false} FillRun(init: seq<Table>, t: Table, count: nat)
    returns (labels: seq<Label>, full: Table)
    requires Holds(t, count) && 0 < count <= 513
    ensures Holds(full, 513)
    ensures Run(Alone(0, 0, Lock.Idle, Start, init + [t]), labels, Alone(0, 0, Lock.Idle, Start, init + [full]))
    decreases 513 - count
  {
    var s := Alone(0, 0, Lock.Idle, Start, init + [t]);
    if count == 513 {
      return [], t;
    }
    OneStep(s, [], s, Check(0), Alone(0, 0, Lock.Idle, AskRead, init + [t]));
    var more := InsertRun(init, t, LARGE);
    var next := Alone(0, 0, Lock.Idle, Start, init + [Grown(t, LARGE)]);
    Append(s, [] + [Check(0)], Alone(0, 0, Lock.Idle, AskRead, init + [t]), more, next);
    labels := [] + [Check(0)] + more;
    more, full := FillRun(init, Grown(t, LARGE), count + 1);
    Append(s, labels, next, more, Alone(0, 0, Lock.Idle, Start, init + [full]));
    labels := labels + more;
  }

  // A call that finds the table full, up to the second check inside the write lock.
  lemma EnterRun(init: seq<Table>, t: Table) returns (labels: seq<Label>)
    requires Holds(t, 513)
    ensures Run(Alone(0, 0, Lock.Idle, Start, init + [t]), labels, Alone(0, 1, Lock.Writing, AskWrite, init + [t]))
  {
    var s := Alone(0, 0, Lock.Idle, Start, init + [t]);
    labels := [];
    OneStep(s, labels, s, Check(0), Alone(0, 0, Lock.Idle, AskWrite, init + [t]));
    labels := labels + [Check(0)];
    OneStep(s, labels, Alone(0, 0, Lock.Idle, AskWrite, init + [t]), LockStep(Lock.WriteLock(0)),
            Alone(0, 1, Lock.Writing, AskWrite, init + [t]));
    labels := labels + [LockStep(Lock.WriteLock(0))];
  }

  // Filling the table, up to there.
  lemma FillAndEnterRun(init: seq<Table>, t: Table, count: nat) returns (labels: seq<Label>, full: Table)
    requires Holds(t, count) && 0 < count <= 513
    ensures Holds(full, 513)
    ensures Run(Alone(0, 0, Lock.Idle, Start, init + [t]), labels, Alone(0, 1, Lock.Writing, AskWrite, init + [full]))
  {
    var more;
    labels, full := FillRun(init, t, count);
    more := EnterRun(init, full);
    Append(Alone(0, 0, Lock.Idle, Start, init + [t]), labels, Alone(0, 0, Lock.Idle, Start, init + [full]), more,
           Alone(0, 1, Lock.Writing, AskWrite, init + [full]));
    labels := labels + more;
  }

  // The swap, up to the read lock.
  lemma SwapRun(t: Table) returns (labels: seq<Label>)
    requires Holds(t, 513)
    ensures Run(Alone(0, 1, Lock.Writing, AskWrite, [t]), labels,
                Alone(0, 0, Lock.Idle, AskRead, [t] + [NewTable(t.nextId)]))
  {
    var s, two := Alone(0, 1, Lock.Writing, AskWrite, [t]), [t] + [NewTable(t.nextId)];
    labels := [];
    OneStep(s, labels, s, Swap(0), Alone(0, 1, Lock.Writing, Checked, two));
    labels := labels + [Swap(0)];
    assert Lock.NotifyAll([Lock.Idle]) == [Lock.Idle];
    OneStep(s, labels, Alone(0, 1, Lock.Writing, Checked, two), LockStep(Lock.WriteUnlock(0, 0)),
            Alone(0, 0, Lock.Idle, AskRead, two));
    labels := labels + [LockStep(Lock.WriteUnlock(0, 0))];
  }

  // From the write lock on a full first table to a second full table, and the failure.
  lemma SecondFails(one: Table) returns (labels: seq<Label>, t: State)
    requires Holds(one, 513)
    ensures Run(Alone(0, 1, Lock.Writing, AskWrite, [one]), labels, t) && !NoneFailed(t)
  {
    var s, next := Alone(0, 1, Lock.Writing, AskWrite, [one]), NewTable(one.nextId);
    labels := SwapRun(one);
    var more := InsertRun([one], next, LARGE);
    var second := Alone(0, 0, Lock.Idle, Start, [one] + [Grown(next, LARGE)]);
    Append(s, labels, Alone(0, 0, Lock.Idle, AskRead, [one] + [next]), more, second);
    labels := labels + more;
    var full;
    more, full := FillAndEnterRun([one], Grown(next, LARGE), 2);
    var last := Alone(0, 1, Lock.Writing, AskWrite, [one] + [full]);
    Append(s, labels, second, more, last);
    labels := labels + more;
    t := Alone(0, 1, Lock.Writing, Failed, [one] + [full]);
    OneStep(s, labels, last, Fail(0), t);
    labels := labels + [Fail(0)];
    assert t.prog[0] == Failed;
  }

  /** A failure can be reached: one thread fills a table with 512 entries that take a block each, swaps
      it, fills the next one in the same way, and the compaction of the first has failed. */
  lemma FailureIsReachable(first: nat) returns (labels: seq<Label>, t: State)
    ensures Run(Init(1, first), labels, t) && !NoneFailed(t)
  {
    var s, zero := Init(1, first), NewTable(first);
    assert s == Alone(0, 0, Lock.Idle, Start, [] + [zero]);
    var one, more;
    labels, one := FillAndEnterRun([], zero, 1);
    assert [] + [one] == [one];
    more, t := SecondFails(one);
    Append(s, labels, Alone(0, 1, Lock.Writing, AskWrite, [one]), more, t);
    labels := labels + more;
  }
}
