/** The writer-priority read/write lock (src/util/lock_util.cc) as a state machine. A step is one
    critical section of the lock's mutex; a condition variable resumes only notified threads. */
module RWLock {

  // What a thread is doing with the lock.
  datatype Pc =
    | Idle
    | ReadWaiting     // blocked on r_cv
    | ReadWoken       // notified on r_cv, has to test again
    | Reading
    | WriteWaiting    // blocked on w_cv
    | WriteGranted    // notified on w_cv: goes on without another test
    | Writing

  datatype State = State(readCount: int, writeCount: int, pc: seq<Pc>)

  // The thread that moves; `wake` is the thread a notify_one picks.
  datatype Label =
    | ReadLock(i: nat)
    | ReadRetest(i: nat)
    | ReadUnlock(i: nat, wake: nat)
    | WriteLock(i: nat)
    | WriteResume(i: nat)
    | WriteUnlock(i: nat, wake: nat)

  // notify_one wakes a waiting writer if there is one.
  predicate CanWake(pc: seq<Pc>, wake: nat) {
    if WriteWaiting in pc then wake < |pc| && pc[wake] == WriteWaiting else true
  }

  predicate Enabled(s: State, l: Label) {
    l.i < |s.pc| &&
    match l
    case ReadLock(i) => s.pc[i] == Idle
    case ReadRetest(i) => s.pc[i] == ReadWoken
    case ReadUnlock(i, wake) => s.pc[i] == Reading && CanWake(s.pc[i := Idle], wake)
    case WriteLock(i) => s.pc[i] == Idle
    case WriteResume(i) => s.pc[i] == WriteGranted
    case WriteUnlock(i, wake) => s.pc[i] == Writing && CanWake(s.pc[i := Idle], wake)
  }

  function NotifyOne(pc: seq<Pc>, wake: nat): seq<Pc>
    requires CanWake(pc, wake)
  {
    if WriteWaiting in pc then pc[wake := WriteGranted] else pc
  }

  function NotifyAll(pc: seq<Pc>): (r: seq<Pc>)
    ensures |r| == |pc|
  {
    seq(|pc|, i requires 0 <= i < |pc| => if pc[i] == ReadWaiting then ReadWoken else pc[i])
  }

  // `while (write_count_ != 0) wait; ++read_count_`, up to the next wait.
  function TryRead(s: State, i: nat): State
    requires i < |s.pc|
  {
    if s.writeCount != 0
    then s.(pc := s.pc[i := ReadWaiting])
    else State(s.readCount + 1, s.writeCount, s.pc[i := Reading])
  }

  function Apply(s: State, l: Label): State
    requires Enabled(s, l)
  {
    match l
    case ReadLock(i) => TryRead(s, i)
    case ReadRetest(i) => TryRead(s, i)
    case ReadUnlock(i, wake) =>
      var pc := s.pc[i := Idle];
      var r := s.readCount - 1;
      State(r, s.writeCount, if r == 0 && s.writeCount > 0 then NotifyOne(pc, wake) else pc)
    case WriteLock(i) =>
      var w := s.writeCount + 1;
      State(s.readCount, w, s.pc[i := if w > 1 || s.readCount != 0 then WriteWaiting else Writing])
    case WriteResume(i) => s.(pc := s.pc[i := Writing])
    case WriteUnlock(i, wake) =>
      var pc := s.pc[i := Idle];
      var w := s.writeCount - 1;
      State(s.readCount, w, if w == 0 then NotifyAll(pc) else NotifyOne(pc, wake))
  }

  function Count(s: State, p: Pc): nat {
    multiset(s.pc)[p]
  }

  /** Threads that hold the write lock or have been granted it. */
  function Holders(s: State): nat {
    Count(s, Writing) + Count(s, WriteGranted)
  }

  /** The counters count what they say; writers exclude each other and the readers; and no wake-up
      is lost, for writers and for readers. */
  predicate Inv(s: State) {
    && s.readCount == Count(s, Reading)
    && s.writeCount == Holders(s) + Count(s, WriteWaiting)
    && Holders(s) <= 1
    && (Holders(s) == 1 ==> s.readCount == 0)
    && (s.writeCount > 0 && s.readCount == 0 ==> Holders(s) == 1)
    && (s.writeCount == 0 ==> Count(s, ReadWaiting) == 0)
  }

  function Init(n: nat): State {
    State(0, 0, seq(n, _ => Idle))
  }

  lemma CountOf(pc: seq<Pc>, i: nat)
    requires i < |pc|
    ensures multiset(pc)[pc[i]] > 0
  {
    assert pc[i] in multiset(pc);
  }

  lemma {:induction false} NotifyAllCounts(pc: seq<Pc>)
    ensures multiset(NotifyAll(pc))[ReadWaiting] == 0
    ensures forall p :: p != ReadWaiting && p != ReadWoken ==> multiset(NotifyAll(pc))[p] == multiset(pc)[p]
  {
    if pc != [] {
      var n := |pc| - 1;
      assert pc == pc[..n] + [pc[n]];
      assert NotifyAll(pc) == NotifyAll(pc[..n]) + [NotifyAll(pc)[n]];
      NotifyAllCounts(pc[..n]);
    } else {
      assert NotifyAll(pc) == [];
    }
  }

  lemma InitInv(n: nat)
    ensures Inv(Init(n))
  {
    forall p | p in multiset(Init(n).pc)
      ensures p == Idle
    {
      assert p in Init(n).pc;
    }
  }

  lemma Moved(pc: seq<Pc>, i: nat, p: Pc)
    requires i < |pc|
    ensures multiset(pc[i := p]) == multiset(pc)[pc[i] := multiset(pc)[pc[i]] - 1] + multiset{p}
    ensures WriteWaiting in pc[i := p] <==> multiset(pc[i := p])[WriteWaiting] > 0
  {
    CountOf(pc, i);
    assert WriteWaiting in pc[i := p] <==> WriteWaiting in multiset(pc[i := p]);
  }

  lemma NotifyKeepsInv(s: State, wake: nat)
    requires CanWake(s.pc, wake)
    requires s.readCount == Count(s, Reading) == 0 && Holders(s) == 0
    requires s.writeCount == Count(s, WriteWaiting) > 0
    ensures Inv(State(0, s.writeCount, NotifyOne(s.pc, wake)))
  {
    assert WriteWaiting in multiset(s.pc);
    Moved(s.pc, wake, WriteGranted);
  }

  lemma ReleaseKeepsInv(s: State, i: nat, wake: nat)
    requires Inv(s) && i < |s.pc|
    ensures Enabled(s, ReadUnlock(i, wake)) ==> Inv(Apply(s, ReadUnlock(i, wake)))
    ensures Enabled(s, WriteUnlock(i, wake)) ==> Inv(Apply(s, WriteUnlock(i, wake)))
  {
    var pc := s.pc[i := Idle];
    CountOf(s.pc, i);
    Moved(s.pc, i, Idle);
    if Enabled(s, ReadUnlock(i, wake)) && s.readCount == 1 && s.writeCount > 0 {
      NotifyKeepsInv(State(0, s.writeCount, pc), wake);
    }
    if Enabled(s, WriteUnlock(i, wake)) {
      if s.writeCount > 1 {
        NotifyKeepsInv(State(0, s.writeCount - 1, pc), wake);
      } else {
        NotifyAllCounts(pc);
      }
    }
  }

  lemma TryReadKeepsInv(s: State, i: nat)
    requires Inv(s) && i < |s.pc| && (s.pc[i] == Idle || s.pc[i] == ReadWoken)
    ensures Inv(TryRead(s, i))
  {
    CountOf(s.pc, i);
    Moved(s.pc, i, TryRead(s, i).pc[i]);
  }

  lemma WriteKeepsInv(s: State, i: nat)
    requires Inv(s) && Enabled(s, WriteLock(i))
    ensures Inv(Apply(s, WriteLock(i)))
  {
    CountOf(s.pc, i);
    Moved(s.pc, i, Apply(s, WriteLock(i)).pc[i]);
  }

  lemma ResumeKeepsInv(s: State, i: nat)
    requires Inv(s) && Enabled(s, WriteResume(i))
    ensures Inv(Apply(s, WriteResume(i)))
  {
    CountOf(s.pc, i);
    Moved(s.pc, i, Writing);
  }

  /** Every step keeps the invariant. */
  lemma StepKeepsInv(s: State, l: Label)
    requires Inv(s) && Enabled(s, l)
    ensures Inv(Apply(s, l)) && |Apply(s, l).pc| == |s.pc|
  {
    match l
    case ReadLock(i) => TryReadKeepsInv(s, i);
    case ReadRetest(i) => TryReadKeepsInv(s, i);
    case WriteLock(i) => WriteKeepsInv(s, i);
    case WriteResume(i) => ResumeKeepsInv(s, i);
    case ReadUnlock(i, wake) => ReleaseKeepsInv(s, i, wake);
    case WriteUnlock(i, wake) => ReleaseKeepsInv(s, i, wake);
  }

  /** The states a run of steps goes through. */
  predicate Run(s: State, labels: seq<Label>, t: State)
    decreases |labels|
  {
    if labels == [] then s == t
    else Enabled(s, labels[0]) && Run(Apply(s, labels[0]), labels[1..], t)
  }

  lemma {:induction false} RunKeepsInv(s: State, labels: seq<Label>, t: State)
    requires Inv(s) && Run(s, labels, t)
    ensures Inv(t) && |t.pc| == |s.pc|
    decreases |labels|
  {
    if labels != [] {
      StepKeepsInv(s, labels[0]);
      RunKeepsInv(Apply(s, labels[0]), labels[1..], t);
    }
  }

  /** In every reachable state: a writer inside excludes every other thread. */
  lemma MutualExclusion(n: nat, labels: seq<Label>, t: State, i: nat, j: nat)
    requires Run(Init(n), labels, t) && i < |t.pc| && j < |t.pc| && i != j
    requires t.pc[i] == Writing || t.pc[i] == WriteGranted
    ensures t.pc[j] != Reading && t.pc[j] != Writing && t.pc[j] != WriteGranted
  {
    InitInv(n);
    RunKeepsInv(Init(n), labels, t);
    CountOf(t.pc, i);
    CountOf(t.pc, j);
    if t.pc[j] == Writing || t.pc[j] == WriteGranted {
      TwoHolders(t.pc, i, j);
    }
  }

  lemma TwoHolders(pc: seq<Pc>, i: nat, j: nat)
    requires i < |pc| && j < |pc| && i != j
    requires (pc[i] == Writing || pc[i] == WriteGranted) && (pc[j] == Writing || pc[j] == WriteGranted)
    ensures multiset(pc)[Writing] + multiset(pc)[WriteGranted] >= 2
  {
    var rest := pc[i := Idle];
    CountOf(rest, j);
    CountOf(pc, i);
  }

  /** In every reachable state: if a thread waits, some thread is not blocked. No deadlock, no lost
      notification. */
  lemma NoDeadlock(n: nat, labels: seq<Label>, t: State, i: nat)
    requires Run(Init(n), labels, t) && i < |t.pc|
    requires t.pc[i] == ReadWaiting || t.pc[i] == WriteWaiting
    ensures exists j :: 0 <= j < |t.pc| && t.pc[j] in {Reading, WriteGranted, Writing}
  {
    InitInv(n);
    RunKeepsInv(Init(n), labels, t);
    CountOf(t.pc, i);
    var p := if t.readCount > 0 then Reading else if Count(t, Writing) > 0 then Writing else WriteGranted;
    assert p in multiset(t.pc);
    assert p in t.pc;
  }

  /** In every reachable state: while writers are counted and no reader is inside, a writer holds the
      lock or has been granted it. */
  lemma WriterIsServed(n: nat, labels: seq<Label>, t: State)
    requires Run(Init(n), labels, t) && t.writeCount > 0 && t.readCount == 0
    ensures exists j :: 0 <= j < |t.pc| && t.pc[j] in {WriteGranted, Writing}
  {
    InitInv(n);
    RunKeepsInv(Init(n), labels, t);
    var p := if Count(t, Writing) > 0 then Writing else WriteGranted;
    assert p in multiset(t.pc);
    assert p in t.pc;
  }

  // ---------------------------------------------------------------- steps in terms of the threads

  predicate IsWriter(p: Pc) {
    p == WriteWaiting || p == WriteGranted || p == Writing
  }

  /** Some thread wants the write lock, has been granted it or holds it. */
  predicate WriterThere(s: State) {
    exists k :: 0 <= k < |s.pc| && IsWriter(s.pc[k])
  }

  predicate ReaderThere(s: State) {
    exists k :: 0 <= k < |s.pc| && s.pc[k] == Reading
  }

  lemma SomeThread(pc: seq<Pc>, p: Pc)
    ensures multiset(pc)[p] > 0 <==> exists k :: 0 <= k < |pc| && pc[k] == p
  {
    assert p in multiset(pc) <==> p in pc;
  }

  // What the counters say about the threads.
  lemma CountersTell(s: State)
    requires Inv(s)
    ensures s.writeCount != 0 <==> WriterThere(s)
    ensures s.readCount != 0 <==> ReaderThere(s)
    ensures s.writeCount >= 0 && s.readCount >= 0
  {
    SomeThread(s.pc, WriteWaiting);
    SomeThread(s.pc, WriteGranted);
    SomeThread(s.pc, Writing);
    SomeThread(s.pc, Reading);
  }

  /** A thread that asks for the read lock, or asks again, gets it if and only if no writer is there. */
  lemma ReaderEnters(s: State, l: Label)
    requires Inv(s) && Enabled(s, l) && (l.ReadLock? || l.ReadRetest?)
    ensures Apply(s, l).pc == s.pc[l.i := if WriterThere(s) then ReadWaiting else Reading]
  {
    CountersTell(s);
  }

  /** A thread that asks for the write lock gets it if and only if nobody else wants it or is inside. */
  lemma WriterEnters(s: State, i: nat)
    requires Inv(s) && Enabled(s, WriteLock(i))
    ensures Apply(s, WriteLock(i)).pc == s.pc[i := if WriterThere(s) || ReaderThere(s) then WriteWaiting else Writing]
  {
    CountersTell(s);
  }

  // The step of a reader that leaves, up to the notification.
  lemma OneReaderLess(s: State, i: nat)
    requires Inv(s) && i < |s.pc| && s.pc[i] == Reading
    ensures s.readCount - 1 == 0 <==> forall k :: 0 <= k < |s.pc| && k != i ==> s.pc[k] != Reading
  {
    var rest := s.pc[i := Idle];
    CountOf(s.pc, i);
    Moved(s.pc, i, Idle);
    SomeThread(rest, Reading);
    assert forall k :: 0 <= k < |s.pc| && k != i ==> rest[k] == s.pc[k];
  }

  /** A reader that leaves wakes a waiting writer, if there is one and no other reader is inside; it
      wakes nobody else. */
  lemma ReaderLeaves(s: State, i: nat, wake: nat)
    requires Inv(s) && Enabled(s, ReadUnlock(i, wake))
    ensures var alone := forall k :: 0 <= k < |s.pc| && k != i ==> s.pc[k] != Reading;
            var next := s.pc[i := Idle];
            Apply(s, ReadUnlock(i, wake)).pc
            == if alone && WriteWaiting in next then next[wake := WriteGranted] else next
  {
    var next := s.pc[i := Idle];
    OneReaderLess(s, i);
    CountersTell(s);
    if WriteWaiting in next {
      var k :| 0 <= k < |next| && next[k] == WriteWaiting;
      assert IsWriter(s.pc[k]);
    }
  }

  lemma OneWriterLess(s: State, i: nat)
    requires Inv(s) && i < |s.pc| && s.pc[i] == Writing
    ensures s.writeCount - 1 == 0 <==> WriteWaiting !in s.pc[i := Idle]
    ensures WriteWaiting in s.pc[i := Idle] <==> exists k :: 0 <= k < |s.pc| && k != i && IsWriter(s.pc[k])
  {
    var rest := s.pc[i := Idle];
    CountOf(s.pc, i);
    Moved(s.pc, i, Idle);
    SomeThread(rest, WriteWaiting);
    assert forall k :: 0 <= k < |s.pc| && k != i ==> rest[k] == s.pc[k];
    forall k | 0 <= k < |s.pc| && k != i
      ensures s.pc[k] != Writing && s.pc[k] != WriteGranted
    {
      if s.pc[k] == Writing || s.pc[k] == WriteGranted {
        TwoHolders(s.pc, i, k);
      }
    }
  }

  /** A writer that leaves wakes one waiting writer if there is one, and otherwise every waiting reader. */
  lemma WriterLeaves(s: State, i: nat, wake: nat)
    requires Inv(s) && Enabled(s, WriteUnlock(i, wake))
    ensures var next, t := s.pc[i := Idle], Apply(s, WriteUnlock(i, wake)).pc;
            && (WriteWaiting in next ==> t == next[wake := WriteGranted])
            && (WriteWaiting !in next ==>
                  |t| == |next| && forall k :: 0 <= k < |next| ==>
                    t[k] == if next[k] == ReadWaiting then ReadWoken else next[k])
  {
    OneWriterLess(s, i);
  }

  // ---------------------------------------------------------------- writer priority

  /** Writer priority: while a writer waits, has been granted the lock or holds it, no thread becomes
      a reader. */
  lemma NoReaderPasses(s: State, l: Label, k: nat)
    requires Inv(s) && Enabled(s, l) && WriterThere(s)
    requires k < |s.pc| && s.pc[k] != Reading
    ensures |Apply(s, l).pc| == |s.pc| && Apply(s, l).pc[k] != Reading
  {
    StepKeepsInv(s, l);
    if l.ReadLock? || l.ReadRetest? {
      ReaderEnters(s, l);
    }
  }

  // Some writer is there before each of these steps.
  predicate WritersThroughout(s: State, labels: seq<Label>, t: State)
    requires Run(s, labels, t)
    decreases |labels|
  {
    labels != [] ==> WriterThere(s) && WritersThroughout(Apply(s, labels[0]), labels[1..], t)
  }

  /** So along every run from a reachable state, as long as a writer stays there, the readers can only
      leave: whoever is inside at the end was inside at the start. */
  lemma ReadersOnlyLeave(n: nat, before: seq<Label>, s: State, labels: seq<Label>, t: State, k: nat)
    requires Run(Init(n), before, s) && Run(s, labels, t) && WritersThroughout(s, labels, t)
    requires k < |t.pc| && t.pc[k] == Reading
    ensures k < |s.pc| && s.pc[k] == Reading
  {
    InitInv(n);
    RunKeepsInv(Init(n), before, s);
    RunKeepsInv(s, labels, t);
    if k < |s.pc| && s.pc[k] != Reading {
      StaysOutside(s, labels, t, k);
    }
  }

  lemma {:induction false} StaysOutside(s: State, labels: seq<Label>, t: State, k: nat)
    requires Inv(s) && Run(s, labels, t) && WritersThroughout(s, labels, t)
    requires k < |s.pc| && s.pc[k] != Reading
    ensures |t.pc| == |s.pc| && t.pc[k] != Reading
    decreases |labels|
  {
    if labels != [] {
      StepKeepsInv(s, labels[0]);
      NoReaderPasses(s, labels[0], k);
      StaysOutside(Apply(s, labels[0]), labels[1..], t, k);
    }
  }

  /** The lock object. Each method is one critical section; which thread a notification wakes is the
      scheduler's choice, so the waiting threads are ghost state. */
  class ReadWriteLock {
    var readCount: int
    var writeCount: int
    ghost var pc: seq<Pc>

    ghost function Abs(): State
      reads this
    {
      State(readCount, writeCount, pc)
    }

    constructor (ghost threads: nat)
      ensures Abs() == Init(threads)
    {
      readCount, writeCount, pc := 0, 0, seq(threads, _ => Idle);
    }

    // ReadLock from the top of its loop: first entry, or after a wake-up.
    method ReadLock(ghost i: nat) returns (entered: bool)
      requires i < |pc| && (pc[i] == Idle || pc[i] == ReadWoken)
      modifies this
      ensures Abs() == Apply(old(Abs()), if old(pc)[i] == Idle then Label.ReadLock(i) else ReadRetest(i))
      ensures entered <==> pc[i] == Reading
    {
      if writeCount != 0 {
        pc := pc[i := ReadWaiting];
        return false;
      }
      readCount := readCount + 1;
      pc := pc[i := Reading];
      return true;
    }

    method ReadUnlock(ghost i: nat, ghost wake: nat)
      requires Enabled(Abs(), Label.ReadUnlock(i, wake))
      modifies this
      ensures Abs() == Apply(old(Abs()), Label.ReadUnlock(i, wake))
    {
      readCount := readCount - 1;
      pc := pc[i := Idle];
      if readCount == 0 && writeCount > 0 {
        pc := NotifyOne(pc, wake);
      }
    }

    method WriteLock(ghost i: nat) returns (entered: bool)
      requires i < |pc| && pc[i] == Idle
      modifies this
      ensures Abs() == Apply(old(Abs()), Label.WriteLock(i))
      ensures entered <==> pc[i] == Writing
    {
      writeCount := writeCount + 1;
      if writeCount > 1 || readCount != 0 {
        pc := pc[i := WriteWaiting];
        return false;
      }
      pc := pc[i := Writing];
      return true;
    }

    method WriteUnlock(ghost i: nat, ghost wake: nat)
      requires Enabled(Abs(), Label.WriteUnlock(i, wake))
      modifies this
      ensures Abs() == Apply(old(Abs()), Label.WriteUnlock(i, wake))
    {
      writeCount := writeCount - 1;
      pc := pc[i := Idle];
      if writeCount == 0 {
        pc := NotifyAll(pc);
      } else {
        pc := NotifyOne(pc, wake);
      }
    }
  }
}
