/** What every step of the locking protocol keeps, and safety over every run. */
module ReadWriteInvariant {
  import opened Prelude
  import opened ReadWrite

  // ---------------------------------------------------------------- counting threads

  /** How many threads are inside the read window of `f`. */
  function Readers(threads: seq<Pc>, f: FileId): nat {
    if threads == [] then 0 else One(InRead(threads[0], f)) + Readers(threads[1..], f)
  }

  /** How many threads are inside a write window of `f`. */
  function Writers(threads: seq<Pc>, f: FileId): nat {
    if threads == [] then 0 else One(InWrite(threads[0], f)) + Writers(threads[1..], f)
  }

  lemma {:induction false} CountsAfterUpdate(threads: seq<Pc>, t: Tid, pc: Pc, f: FileId)
    requires t < |threads|
    ensures Readers(threads[t := pc], f) == Readers(threads, f) - One(InRead(threads[t], f)) + One(InRead(pc, f))
    ensures Writers(threads[t := pc], f) == Writers(threads, f) - One(InWrite(threads[t], f)) + One(InWrite(pc, f))
  {
    hide InRead, InWrite;
    var after := threads[t := pc];
    if t == 0 {
      assert after[1..] == threads[1..];
    } else {
      assert after[1..] == threads[1..][t - 1 := pc];
      CountsAfterUpdate(threads[1..], t - 1, pc, f);
    }
  }

  lemma {:induction false} CountsOfSame(a: seq<Pc>, b: seq<Pc>, f: FileId)
    requires |a| == |b|
    requires forall u :: 0 <= u < |a| ==> InRead(a[u], f) == InRead(b[u], f) && InWrite(a[u], f) == InWrite(b[u], f)
    ensures Readers(a, f) == Readers(b, f) && Writers(a, f) == Writers(b, f)
  {
    hide InRead, InWrite;
    if a != [] {
      CountsOfSame(a[1..], b[1..], f);
    }
  }

  lemma {:induction false} CountsArePositive(threads: seq<Pc>, u: Tid, f: FileId)
    requires u < |threads|
    ensures InRead(threads[u], f) ==> Readers(threads, f) > 0
    ensures InWrite(threads[u], f) ==> Writers(threads, f) > 0
  {
    hide InRead, InWrite;
    if u > 0 {
      CountsArePositive(threads[1..], u - 1, f);
    }
  }

  lemma {:induction false} SomebodyReads(threads: seq<Pc>, f: FileId) returns (u: Tid)
    requires Readers(threads, f) > 0
    ensures u < |threads| && InRead(threads[u], f)
  {
    hide InRead;
    if InRead(threads[0], f) {
      u := 0;
    } else {
      u := SomebodyReads(threads[1..], f);
      u := u + 1;
    }
  }

  lemma {:induction false} SomebodyWrites(threads: seq<Pc>, f: FileId) returns (u: Tid)
    requires Writers(threads, f) > 0
    ensures u < |threads| && InWrite(threads[u], f)
  {
    hide InWrite;
    if InWrite(threads[0], f) {
      u := 0;
    } else {
      u := SomebodyWrites(threads[1..], f);
      u := u + 1;
    }
  }

  /** Two writers would count twice. */
  lemma {:induction false} TwoWriters(threads: seq<Pc>, f: FileId, u: Tid, v: Tid)
    requires u < v < |threads| && InWrite(threads[u], f) && InWrite(threads[v], f)
    ensures Writers(threads, f) >= 2
  {
    hide InWrite;
    if u == 0 {
      CountsArePositive(threads[1..], v - 1, f);
    } else {
      TwoWriters(threads[1..], f, u - 1, v - 1);
    }
  }

  // ---------------------------------------------------------------- the invariant

  /** `activeReaders` and `isBeingWritten` say who is inside, and never readers and a writer together. */
  ghost predicate FlagsOk(threads: seq<Pc>, file: File, f: FileId) {
    && file.activeReaders == Readers(threads, f)
    && Writers(threads, f) == One(file.isBeingWritten)
    && !(file.activeReaders > 0 && file.isBeingWritten)
  }

  /** A thread holds the mutexes of a file exactly when its program counter says so. */
  ghost predicate LocksOk(pc: Pc, t: Tid, file: File, f: FileId) {
    && (HoldsOrdering(pc, f) <==> file.ordering == Some(t))
    && (HoldsMutex(pc, f) <==> file.mutex == Some(t))
  }

  /** A thread refers only to files that are linked, except for the one that it is freeing. */
  ghost predicate RefersOk(pc: Pc, files: seq<File>) {
    && (HasFile(pc) ==> pc.f < |files| && (files[pc.f].linked || Frees(pc, pc.f)))
    && (!pc.Idle? && pc.op.Destroy? && pc.op.own.Some? ==> pc.op.own.value < |files| && files[pc.op.own.value].linked)
  }

  /** A parked thread still has to wait, and no writer slips past one that is waiting to write. */
  ghost predicate WaitsOk(pc: Pc, file: File) {
    && (pc.Parked? ==> MustWait(pc.op, file))
    && ((pc.Loop? || pc.Parked? || pc.Waking?) && pc.op.Write? ==> !file.isBeingWritten)
  }

  ghost predicate ThreadOk(s: State, t: Tid)
    requires t < |s.threads|
  {
    && Sensible(s.threads[t])
    && (HoldsStore(s.threads[t]) <==> s.store == Some(t))
    && RefersOk(s.threads[t], s.files)
    && (HasFile(s.threads[t]) ==> WaitsOk(s.threads[t], s.files[s.threads[t].f]))
    && forall f {:trigger LocksOk(s.threads[t], t, s.files[f], f)} :: 0 <= f < |s.files| ==>
      LocksOk(s.threads[t], t, s.files[f], f)
  }

  predicate OwnerOk(owner: Option<Tid>, n: nat) {
    owner.Some? ==> owner.value < n
  }

  ghost predicate FileOk(s: State, f: FileId)
    requires f < |s.files|
  {
    && FlagsOk(s.threads, s.files[f], f)
    && OwnerOk(s.files[f].ordering, |s.threads|) && OwnerOk(s.files[f].mutex, |s.threads|)
  }

  ghost predicate Inv(s: State) {
    && OwnerOk(s.store, |s.threads|)
    && (forall t {:trigger ThreadOk(s, t)} :: 0 <= t < |s.threads| ==> ThreadOk(s, t))
    && (forall f {:trigger FileOk(s, f)} :: 0 <= f < |s.files| ==> FileOk(s, f))
  }

  // ---------------------------------------------------------------- steps that concern one thread and one file

  /** A mutex changes only between free and held by `t`. */
  predicate ByOwner(before: Option<Tid>, after: Option<Tid>, t: Tid) {
    before == after || ((before == None || before == Some(t)) && (after == None || after == Some(t)))
  }

  /** Only thread `t` and file `f` change, and parked threads of `f` may be woken. */
  ghost predicate Local(s: State, s': State, t: Tid, f: FileId) {
    && t < |s.threads| == |s'.threads| && |s.files| == |s'.files|
    && (forall g {:trigger s'.files[g]} :: 0 <= g < |s.files| && g != f ==> s'.files[g] == s.files[g])
    && (forall u {:trigger s'.threads[u]} :: 0 <= u < |s.threads| && u != t ==>
          s'.threads[u] == s.threads[u] || (IsParked(s.threads[u], f) && s'.threads[u] == Woken(s.threads[u])))
  }

  /** What the step must not break for other threads. */
  ghost predicate Polite(s: State, s': State, t: Tid, f: FileId)
    requires Local(s, s', t, f)
  {
    && ByOwner(s.store, s'.store, t)
    && (f < |s.files| ==>
          && ByOwner(s.files[f].ordering, s'.files[f].ordering, t)
          && ByOwner(s.files[f].mutex, s'.files[f].mutex, t)
          && (s'.files[f].linked == s.files[f].linked || forall u :: 0 <= u < |s.threads| && u != t ==>
            !Refers(s.threads[u], f))
          && (s'.files[f].isBeingWritten ==> s.files[f].isBeingWritten || s.files[f].ordering == Some(t))
          && (forall u {:trigger s'.threads[u]} :: 0 <= u < |s.threads| && u != t && IsParked(s'.threads[u], f) ==>
                MustWait(s'.threads[u].op, s'.files[f])))
  }

  lemma OthersKeep(s: State, s': State, t: Tid, f: FileId, u: Tid)
    requires Inv(s) && Local(s, s', t, f) && Polite(s, s', t, f) && u < |s.threads| && u != t
    ensures ThreadOk(s', u)
  {
    assert ThreadOk(s, u);
    var pc, pc' := s.threads[u], s'.threads[u];
    forall g | 0 <= g < |s'.files| ensures LocksOk(pc', u, s'.files[g], g) {
      assert LocksOk(pc, u, s.files[g], g);
    }
  }

  /** No file other than `f` is entered or left. */
  ghost predicate SameElsewhere(pc: Pc, pc': Pc, f: FileId) {
    forall g: FileId {:trigger InRead(pc', g)} {:trigger InWrite(pc', g)} ::
      g != f ==> InRead(pc', g) == InRead(pc, g) && InWrite(pc', g) == InWrite(pc, g)
  }

  /** The flags of a file after a thread has gone from `pc` to `pc'`. */
  predicate Follows(file: File, file': File, pc: Pc, pc': Pc, f: FileId) {
    && file'.activeReaders == file.activeReaders - One(InRead(pc, f)) + One(InRead(pc', f))
    && One(file'.isBeingWritten) == One(file.isBeingWritten) - One(InWrite(pc, f)) + One(InWrite(pc', f))
    && !(file'.activeReaders > 0 && file'.isBeingWritten)
  }

  /** The flags of the file change as thread `t` enters or leaves it, and no other file is entered or left. */
  ghost predicate Balanced(s: State, s': State, t: Tid, f: FileId)
    requires Local(s, s', t, f)
  {
    && SameElsewhere(s.threads[t], s'.threads[t], f)
    && (f < |s.files| ==> Follows(s.files[f], s'.files[f], s.threads[t], s'.threads[t], f))
  }

  lemma CountsAfterStep(s: State, s': State, t: Tid, f: FileId, g: FileId)
    requires Local(s, s', t, f)
    ensures Readers(s'.threads, g)
      == Readers(s.threads, g) - One(InRead(s.threads[t], g)) + One(InRead(s'.threads[t], g))
    ensures Writers(s'.threads, g)
      == Writers(s.threads, g) - One(InWrite(s.threads[t], g)) + One(InWrite(s'.threads[t], g))
  {
    var mid := s.threads[t := s'.threads[t]];
    CountsAfterUpdate(s.threads, t, s'.threads[t], g);
    assert forall u :: 0 <= u < |mid| ==>
      InRead(mid[u], g) == InRead(s'.threads[u], g) && InWrite(mid[u], g) == InWrite(s'.threads[u], g);
    CountsOfSame(mid, s'.threads, g);
  }

  lemma FilesKeep(s: State, s': State, t: Tid, f: FileId, g: FileId)
    requires Inv(s) && Local(s, s', t, f) && Polite(s, s', t, f) && Balanced(s, s', t, f) && g < |s.files|
    ensures FileOk(s', g)
  {
    hide InRead, InWrite, ThreadOk;
    assert FileOk(s, g);
    CountsAfterStep(s, s', t, f, g);
  }

  /** A step of one thread on one file keeps the invariant if it respects the other threads and balances the flags. */
  lemma LocalStepKeeps(s: State, s': State, t: Tid, f: FileId)
    requires Inv(s) && Local(s, s', t, f) && Polite(s, s', t, f) && Balanced(s, s', t, f)
    requires ThreadOk(s', t)
    ensures Inv(s')
  {
    hide ThreadOk, FileOk, Balanced;
    forall u | 0 <= u < |s'.threads| ensures ThreadOk(s', u) {
      if u != t {
        OthersKeep(s, s', t, f, u);
      }
    }
    forall g | 0 <= g < |s'.files| ensures FileOk(s', g) {
      FilesKeep(s, s', t, f, g);
    }
  }

  // ---------------------------------------------------------------- every action

  /** The step changes no file and neither enters nor leaves one. */
  ghost predicate SameWindows(pc: Pc, pc': Pc) {
    forall g: FileId {:trigger InRead(pc', g)} {:trigger InWrite(pc', g)} ::
      InRead(pc', g) == InRead(pc, g) && InWrite(pc', g) == InWrite(pc, g)
  }

  lemma QuietKeeps(s: State, s': State, t: Tid)
    requires Inv(s) && t < |s.threads| == |s'.threads|
    requires s' == s.(threads := s.threads[t := s'.threads[t]], store := s'.store)
    requires ByOwner(s.store, s'.store, t) && SameWindows(s.threads[t], s'.threads[t]) && ThreadOk(s', t)
    ensures Inv(s')
  {
    hide InRead, InWrite, ThreadOk;
    LocalStepKeeps(s, s', t, |s.files|);
  }

  /** Actions of a thread that has no file yet, or none any more. */
  lemma StoreStepKeeps(s: State, t: Tid, a: Action)
    requires Inv(s) && Enabled(s, t, a)
    requires a.Start? || a.GetStore? || a.Pick? || a.GiveUp? || a.Finish?
    ensures Inv(After(s, t, a))
  {
    hide FileOk, MustWait;
    assert ThreadOk(s, t);
    var s' := After(s, t, a);
    var pc, pc' := s.threads[t], s'.threads[t];
    forall g | 0 <= g < |s'.files| ensures LocksOk(pc', t, s'.files[g], g) {
      assert LocksOk(pc, t, s.files[g], g);
    }
    QuietKeeps(s, s', t);
  }

  /** Actions of a thread that has a file, but does not change it. */
  lemma QuietStepKeeps(s: State, t: Tid, a: Action)
    requires Inv(s) && Enabled(s, t, a)
    requires a.DropStore? || a.Deny? || a.Queue? || a.Evict? || a.Spurious?
    ensures Inv(After(s, t, a))
  {
    hide FileOk, MustWait;
    assert ThreadOk(s, t);
    var s' := After(s, t, a);
    var pc, pc' := s.threads[t], s'.threads[t];
    forall g | 0 <= g < |s'.files| ensures LocksOk(pc', t, s'.files[g], g) {
      assert LocksOk(pc, t, s.files[g], g);
    }
    QuietKeeps(s, s', t);
  }

  lemma AdmitKeeps(s: State, t: Tid)
    requires Inv(s) && Enabled(s, t, Admit)
    ensures Inv(After(s, t, Admit))
  {
    assert ThreadOk(s, t);
    var s' := After(s, t, Admit);
    var pc, pc' := s.threads[t], s'.threads[t];
    if s'.aborted {
      AbortKeeps(s);
    } else {
      forall g | 0 <= g < |s'.files| ensures LocksOk(pc', t, s'.files[g], g) {
        assert LocksOk(pc, t, s.files[g], g);
      }
      QuietKeeps(s, s', t);
    }
  }

  lemma AbortKeeps(s: State)
    requires Inv(s)
    ensures Inv(s.(aborted := true))
  {
    var s' := s.(aborted := true);
    forall u | 0 <= u < |s.threads| ensures ThreadOk(s', u) {
      assert ThreadOk(s, u);
      assert forall f :: 0 <= f < |s.files| ==> LocksOk(s.threads[u], u, s.files[f], f);
    }
    forall f | 0 <= f < |s.files| ensures FileOk(s', f) {
      assert FileOk(s, f);
    }
  }

  /** Threads parked on a file whose flags stay as they are still have to wait. */
  lemma StillParked(s: State, s': State, t: Tid, f: FileId)
    requires Inv(s) && Local(s, s', t, f) && f < |s.files|
    requires s'.files[f].activeReaders == s.files[f].activeReaders
    requires s'.files[f].isBeingWritten == s.files[f].isBeingWritten
    ensures forall u {:trigger s'.threads[u]} :: 0 <= u < |s.threads| && u != t && IsParked(s'.threads[u], f) ==>
      MustWait(s'.threads[u].op, s'.files[f])
  {
    forall u | 0 <= u < |s.threads| && u != t && IsParked(s'.threads[u], f)
      ensures MustWait(s'.threads[u].op, s'.files[f])
    {
      assert ThreadOk(s, u);
    }
  }

  /** A step that takes or releases mutexes of `f`, and neither enters nor leaves a window. */
  lemma LockStepKeeps(s: State, s': State, t: Tid, f: FileId)
    requires Inv(s) && t < |s.threads| == |s'.threads| && f < |s.files| == |s'.files|
    requires s' == s.(threads := s.threads[t := s'.threads[t]],
                      files := s.files[f := s.files[f].(ordering := s'.files[f].ordering, mutex := s'.files[f].mutex)])
    requires ByOwner(s.files[f].ordering, s'.files[f].ordering, t) && ByOwner(s.files[f].mutex, s'.files[f].mutex, t)
    requires SameWindows(s.threads[t], s'.threads[t]) && ThreadOk(s', t)
    ensures Inv(s')
  {
    hide InRead, InWrite, ThreadOk, MustWait;
    assert FileOk(s, f);
    StillParked(s, s', t, f);
    LocalStepKeeps(s, s', t, f);
  }

  lemma TakeKeeps(s: State, t: Tid, a: Action)
    requires Inv(s) && Enabled(s, t, a)
    requires a.GetOrdering? || a.GetMutex? || a.Leave?
    ensures Inv(After(s, t, a))
  {
    hide FileOk, MustWait;
    assert ThreadOk(s, t);
    var s' := After(s, t, a);
    var pc, pc' := s.threads[t], s'.threads[t];
    forall g | 0 <= g < |s'.files| ensures LocksOk(pc', t, s'.files[g], g) {
      assert LocksOk(pc, t, s.files[g], g);
    }
    LockStepKeeps(s, s', t, pc.f);
  }

  lemma ParkKeeps(s: State, t: Tid)
    requires Inv(s) && Enabled(s, t, Turn) && MustWait(s.threads[t].op, s.files[s.threads[t].f])
    ensures Inv(After(s, t, Turn))
  {
    assert ThreadOk(s, t);
    var s' := After(s, t, Turn);
    var pc, pc' := s.threads[t], s'.threads[t];
    assert LocksOk(pc, t, s.files[pc.f], pc.f);
    forall g | 0 <= g < |s'.files| ensures LocksOk(pc', t, s'.files[g], g) {
      assert LocksOk(pc, t, s.files[g], g);
    }
    LockStepKeeps(s, s', t, pc.f);
  }

  /** Giving back the ordering mutex. */
  lemma ReleaseOrderingKeeps(s: State, t: Tid)
    requires Inv(s) && Enabled(s, t, Release) && (s.threads[t].DropOrdering? || s.threads[t].DropOrderingLast?)
    ensures Inv(After(s, t, Release))
  {
    hide MustWait;
    assert ThreadOk(s, t);
    var s' := After(s, t, Release);
    var pc, pc' := s.threads[t], s'.threads[t];
    assert LocksOk(pc, t, s.files[pc.f], pc.f);
    forall g | 0 <= g < |s'.files| ensures LocksOk(pc', t, s'.files[g], g) {
      assert LocksOk(pc, t, s.files[g], g);
    }
    LockStepKeeps(s, s', t, pc.f);
  }

  /** Giving back the mutex of the file. */
  lemma ReleaseMutexKeeps(s: State, t: Tid)
    requires Inv(s) && Enabled(s, t, Release) && (s.threads[t].DropMutex? || s.threads[t].DropMutexFirst?)
    ensures Inv(After(s, t, Release))
  {
    hide MustWait;
    assert ThreadOk(s, t);
    var s' := After(s, t, Release);
    var pc, pc' := s.threads[t], s'.threads[t];
    assert LocksOk(pc, t, s.files[pc.f], pc.f);
    forall g | 0 <= g < |s'.files| ensures LocksOk(pc', t, s'.files[g], g) {
      assert LocksOk(pc, t, s.files[g], g);
    }
    LockStepKeeps(s, s', t, pc.f);
  }

  lemma ReleaseKeeps(s: State, t: Tid)
    requires Inv(s) && Enabled(s, t, Release)
    ensures Inv(After(s, t, Release))
  {
    hide Inv, After;
    if s.threads[t].DropOrdering? || s.threads[t].DropOrderingLast? {
      ReleaseOrderingKeeps(s, t);
    } else {
      ReleaseMutexKeeps(s, t);
    }
  }

  /** A step that changes the flags of `f`. Threads that are still parked on it must still have to wait. */
  lemma FlagStepKeeps(s: State, s': State, t: Tid, f: FileId)
    requires Inv(s) && f < |s.files| && Local(s, s', t, f) && s'.store == s.store
    requires s'.files[f].ordering == s.files[f].ordering && s'.files[f].mutex == s.files[f].mutex
    requires s'.files[f].linked == s.files[f].linked
    requires s'.files[f].isBeingWritten ==> s.files[f].isBeingWritten || s.files[f].ordering == Some(t)
    requires forall u {:trigger s'.threads[u]} :: 0 <= u < |s.threads| && u != t && IsParked(s'.threads[u], f) ==>
      MustWait(s'.threads[u].op, s'.files[f])
    requires Balanced(s, s', t, f) && ThreadOk(s', t)
    ensures Inv(s')
  {
    hide InRead, InWrite, ThreadOk, MustWait;
    LocalStepKeeps(s, s', t, f);
  }

  /** Whoever holds the ordering mutex of a file is the only one that can be parked on it. */
  lemma OnlyOneParks(s: State, t: Tid, u: Tid, f: FileId)
    requires Inv(s) && t < |s.threads| && u < |s.threads| && f < |s.files|
    requires HoldsOrdering(s.threads[t], f) && IsParked(s.threads[u], f)
    ensures u == t
  {
    assert ThreadOk(s, t) && ThreadOk(s, u);
    assert LocksOk(s.threads[t], t, s.files[f], f) && LocksOk(s.threads[u], u, s.files[f], f);
  }

  lemma NobodyElseParks(s: State, t: Tid, f: FileId)
    requires Inv(s) && t < |s.threads| && f < |s.files| && HoldsOrdering(s.threads[t], f)
    ensures forall u {:trigger s.threads[u]} :: 0 <= u < |s.threads| && u != t ==> !IsParked(s.threads[u], f)
  {
    forall u | 0 <= u < |s.threads| && u != t ensures !IsParked(s.threads[u], f) {
      if IsParked(s.threads[u], f) {
        OnlyOneParks(s, t, u, f);
      }
    }
  }

  /** Entering a window: the flags change for the file, and nobody else is waiting on it. */
  lemma EnterKeeps(s: State, t: Tid)
    requires Inv(s) && Enabled(s, t, Turn) && !MustWait(s.threads[t].op, s.files[s.threads[t].f])
    requires s.threads[t].op.Read? || s.threads[t].op.Write? || s.threads[t].op.Lock? || s.threads[t].op.Close?
    ensures Inv(After(s, t, Turn))
  {
    assert ThreadOk(s, t);
    var s' := After(s, t, Turn);
    var pc, pc' := s.threads[t], s'.threads[t];
    assert LocksOk(pc, t, s.files[pc.f], pc.f) && FileOk(s, pc.f);
    forall g | 0 <= g < |s'.files| ensures LocksOk(pc', t, s'.files[g], g) {
      assert LocksOk(pc, t, s.files[g], g);
    }
    NobodyElseParks(s, t, pc.f);
    FlagStepKeeps(s, s', t, pc.f);
  }

  /** Leaving a window as the only writer: everybody is woken. */
  lemma WriterLeaves(s: State, t: Tid)
    requires Inv(s) && Enabled(s, t, Update(None)) && !s.threads[t].op.Read?
    ensures Inv(After(s, t, Update(None)))
  {
    hide MustWait;
    assert ThreadOk(s, t);
    var s' := After(s, t, Update(None));
    var pc, pc' := s.threads[t], s'.threads[t];
    assert LocksOk(pc, t, s.files[pc.f], pc.f) && FileOk(s, pc.f);
    CountsArePositive(s.threads, t, pc.f);
    forall g | 0 <= g < |s'.files| ensures LocksOk(pc', t, s'.files[g], g) {
      assert LocksOk(pc, t, s.files[g], g);
    }
    FlagStepKeeps(s, s', t, pc.f);
  }

  /** At most one thread is parked on a file: the ordering mutex is held across every wait. */
  lemma AtMostOneParked(s: State, f: FileId, u: Tid, v: Tid)
    requires Inv(s) && f < |s.files| && u < |s.threads| && v < |s.threads|
    requires IsParked(s.threads[u], f) && IsParked(s.threads[v], f)
    ensures u == v
  {
    OnlyOneParks(s, u, v, f);
  }

  /** After the last reader's signal nobody is parked on the file; before it, everybody parked waits for readers. */
  lemma SignalSuffices(s: State, t: Tid, woken: Option<Tid>, u: Tid)
    requires Inv(s) && Enabled(s, t, Update(woken)) && s.threads[t].op.Read? && u < |s.threads| && u != t
    requires IsParked(After(s, t, Update(woken)).threads[u], s.threads[t].f)
    ensures MustWait(s.threads[u].op, After(s, t, Update(woken)).files[s.threads[t].f])
  {
    var f := s.threads[t].f;
    assert ThreadOk(s, u) && FileOk(s, f) && IsParked(s.threads[u], f);
    if s.files[f].activeReaders == 1 {
      AtMostOneParked(s, f, u, woken.value);
    }
  }

  lemma LeavingReaderIsOk(s: State, t: Tid, woken: Option<Tid>)
    requires Inv(s) && Enabled(s, t, Update(woken)) && s.threads[t].op.Read?
    ensures ThreadOk(After(s, t, Update(woken)), t)
  {
    hide FileOk;
    assert ThreadOk(s, t);
    var s' := After(s, t, Update(woken));
    var pc, pc' := s.threads[t], s'.threads[t];
    assert LocksOk(pc, t, s.files[pc.f], pc.f);
    forall g | 0 <= g < |s'.files| ensures LocksOk(pc', t, s'.files[g], g) {
      assert LocksOk(pc, t, s.files[g], g);
    }
  }

  lemma ReaderLeaves(s: State, t: Tid, woken: Option<Tid>)
    requires Inv(s) && Enabled(s, t, Update(woken)) && s.threads[t].op.Read?
    ensures Inv(After(s, t, Update(woken)))
  {
    hide MustWait;
    assert ThreadOk(s, t);
    var s' := After(s, t, Update(woken));
    var pc, pc' := s.threads[t], s'.threads[t];
    assert LocksOk(pc, t, s.files[pc.f], pc.f) && FileOk(s, pc.f);
    CountsArePositive(s.threads, t, pc.f);
    LeavingReaderIsOk(s, t, woken);
    forall u | 0 <= u < |s.threads| && u != t && IsParked(s'.threads[u], pc.f)
      ensures MustWait(s'.threads[u].op, s'.files[pc.f])
    {
      SignalSuffices(s, t, woken, u);
    }
    FlagStepKeeps(s, s', t, pc.f);
  }

  /** An unlock wakes everybody, and an exit just goes on. */
  lemma PassKeeps(s: State, t: Tid)
    requires Inv(s) && Enabled(s, t, Turn) && !MustWait(s.threads[t].op, s.files[s.threads[t].f])
    requires s.threads[t].op.Unlock? || s.threads[t].op.Exit?
    ensures Inv(After(s, t, Turn))
  {
    assert ThreadOk(s, t);
    var s' := After(s, t, Turn);
    var pc, pc' := s.threads[t], s'.threads[t];
    assert LocksOk(pc, t, s.files[pc.f], pc.f) && FileOk(s, pc.f);
    forall g | 0 <= g < |s'.files| ensures LocksOk(pc', t, s'.files[g], g) {
      assert LocksOk(pc, t, s.files[g], g);
    }
    NobodyElseParks(s, t, pc.f);
    FlagStepKeeps(s, s', t, pc.f);
  }

  // ---------------------------------------------------------------- file lifetime

  lemma NoOtherReference(s: State, t: Tid, u: Tid)
    requires Inv(s) && Enabled(s, t, Turn) && s.threads[t].op.Destroy?
    requires !MustWait(s.threads[t].op, s.files[s.threads[t].f])
    requires u < |s.threads| && u != t
    ensures !Refers(s.threads[u], s.threads[t].f)
  {
    var f := s.threads[t].f;
    assert ThreadOk(s, t) && ThreadOk(s, u) && FileOk(s, f);
    assert LocksOk(s.threads[t], t, s.files[f], f) && LocksOk(s.threads[u], u, s.files[f], f);
    CountsArePositive(s.threads, u, f);
  }

  /**
    When a file is unlinked, to be freed or handed over, no other thread refers to it: every reference is covered
    by the store mutex, by a mutex of the file, by its reader count or by its writer flag.
  */
  lemma DestroyedFileIsUnreferenced(s: State, t: Tid)
    requires Inv(s) && Enabled(s, t, Turn) && s.threads[t].op.Destroy?
    requires !MustWait(s.threads[t].op, s.files[s.threads[t].f])
    ensures !After(s, t, Turn).files[s.threads[t].f].linked
    ensures forall u :: 0 <= u < |s.threads| && u != t ==> !Refers(s.threads[u], s.threads[t].f)
  {
    forall u | 0 <= u < |s.threads| && u != t ensures !Refers(s.threads[u], s.threads[t].f) {
      NoOtherReference(s, t, u);
    }
  }

  lemma DestroyKeeps(s: State, t: Tid)
    requires Inv(s) && Enabled(s, t, Turn) && s.threads[t].op.Destroy?
    requires !MustWait(s.threads[t].op, s.files[s.threads[t].f])
    ensures Inv(After(s, t, Turn))
  {
    assert ThreadOk(s, t);
    var s' := After(s, t, Turn);
    var pc, pc' := s.threads[t], s'.threads[t];
    assert LocksOk(pc, t, s.files[pc.f], pc.f) && FileOk(s, pc.f);
    forall g | 0 <= g < |s'.files| ensures LocksOk(pc', t, s'.files[g], g) {
      assert LocksOk(pc, t, s.files[g], g);
    }
    DestroyedFileIsUnreferenced(s, t);
    StillParked(s, s', t, pc.f);
    LocalStepKeeps(s, s', t, pc.f);
  }

  // ---------------------------------------------------------------- creation

  lemma {:induction false} CountsOfNone(threads: seq<Pc>, f: FileId)
    requires forall u :: 0 <= u < |threads| ==> !InRead(threads[u], f) && !InWrite(threads[u], f)
    ensures Readers(threads, f) == 0 && Writers(threads, f) == 0
  {
    hide InRead, InWrite;
    if threads != [] {
      CountsOfNone(threads[1..], f);
    }
  }

  lemma NobodyInside(s: State, f: FileId)
    requires Inv(s) && f >= |s.files|
    ensures Readers(s.threads, f) == 0 && Writers(s.threads, f) == 0
  {
    forall u | 0 <= u < |s.threads| ensures !InRead(s.threads[u], f) && !InWrite(s.threads[u], f) {
      assert ThreadOk(s, u);
    }
    CountsOfNone(s.threads, f);
  }

  lemma CreateKeepsThread(s: State, t: Tid, u: Tid)
    requires Inv(s) && Enabled(s, t, Create) && u < |s.threads|
    ensures ThreadOk(After(s, t, Create), u)
  {
    hide MustWait, FileOk;
    var s', n := After(s, t, Create), |s.files|;
    assert ThreadOk(s, u) && ThreadOk(s, t);
    forall g | 0 <= g < |s'.files| ensures LocksOk(s'.threads[u], u, s'.files[g], g) {
      assert g < n ==> LocksOk(s.threads[u], u, s.files[g], g);
    }
  }

  lemma CreateKeepsFile(s: State, t: Tid, g: FileId)
    requires Inv(s) && Enabled(s, t, Create) && g <= |s.files|
    ensures FileOk(After(s, t, Create), g)
  {
    var n := |s.files|;
    NobodyInside(s, n);
    assert ThreadOk(s, t) && (g < n ==> FileOk(s, g));
    CountsAfterUpdate(s.threads, t, Fin(Open), g);
  }

  lemma CreateKeeps(s: State, t: Tid)
    requires Inv(s) && Enabled(s, t, Create)
    ensures Inv(After(s, t, Create))
  {
    hide ThreadOk, FileOk;
    var s' := After(s, t, Create);
    forall u | 0 <= u < |s'.threads| ensures ThreadOk(s', u) {
      CreateKeepsThread(s, t, u);
    }
    forall g | 0 <= g < |s'.files| ensures FileOk(s', g) {
      CreateKeepsFile(s, t, g);
    }
  }

  // ---------------------------------------------------------------- every step, every run

  lemma TurnKeeps(s: State, t: Tid)
    requires Inv(s) && Enabled(s, t, Turn)
    ensures Inv(After(s, t, Turn))
  {
    hide ThreadOk, FileOk, After, Pass;
    var op := s.threads[t].op;
    assert ThreadOk(s, t) && Sensible(s.threads[t]) by {
      SensibleOf(s, t);
    }
    if MustWait(op, s.files[s.threads[t].f]) {
      ParkKeeps(s, t);
    } else if op.Destroy? {
      DestroyKeeps(s, t);
    } else if op.Unlock? || op.Exit? {
      PassKeeps(s, t);
    } else {
      EnterKeeps(s, t);
    }
  }

  lemma SensibleOf(s: State, t: Tid)
    requires Inv(s) && t < |s.threads|
    ensures ThreadOk(s, t) && Sensible(s.threads[t])
  {
    assert ThreadOk(s, t);
  }

  /** Every step of every thread keeps the invariant. */
  lemma StepKeepsInv(s: State, t: Tid, a: Action)
    requires Inv(s) && Enabled(s, t, a)
    ensures Inv(After(s, t, a))
  {
    hide Inv, After, ThreadOk, FileOk;
    match a {
      case Create => CreateKeeps(s, t);
      case GetOrdering => TakeKeeps(s, t, a);
      case GetMutex => TakeKeeps(s, t, a);
      case Leave => TakeKeeps(s, t, a);
      case Admit => AdmitKeeps(s, t);
      case Turn => TurnKeeps(s, t);
      case Release => ReleaseKeeps(s, t);
      case Update(woken) =>
        if s.threads[t].op.Read? {
          ReaderLeaves(s, t, woken);
        } else {
          WriterLeaves(s, t);
        }
      case DropStore => QuietStepKeeps(s, t, a);
      case Deny => QuietStepKeeps(s, t, a);
      case Queue => QuietStepKeeps(s, t, a);
      case Evict(_) => QuietStepKeeps(s, t, a);
      case Spurious => QuietStepKeeps(s, t, a);
      case _ => StoreStepKeeps(s, t, a);
    }
  }

  /** Threads that do nothing, and no file. */
  function Initial(n: nat): State {
    State(None, [], seq(n, _ => Idle), false)
  }

  lemma InitialInv(n: nat)
    ensures Inv(Initial(n))
  {
  }

  datatype Event = Event(t: Tid, a: Action)

  /** The steps can be taken one after the other. */
  ghost predicate IsRun(s: State, events: seq<Event>)
    decreases |events|
  {
    events == [] || (Enabled(s, events[0].t, events[0].a) && IsRun(After(s, events[0].t, events[0].a), events[1..]))
  }

  ghost function Reached(s: State, events: seq<Event>): State
    requires IsRun(s, events)
    decreases |events|
  {
    if events == [] then s else Reached(After(s, events[0].t, events[0].a), events[1..])
  }

  lemma {:induction false} RunKeepsInv(s: State, events: seq<Event>)
    requires Inv(s) && IsRun(s, events)
    ensures Inv(Reached(s, events))
    decreases |events|
  {
    hide Inv, After, Enabled;
    if events != [] {
      StepKeepsInv(s, events[0].t, events[0].a);
      RunKeepsInv(After(s, events[0].t, events[0].a), events[1..]);
    }
  }

  /**
    For any number of threads, files and interleavings: `activeReaders` is the number of threads inside the read
    window, `isBeingWritten` holds exactly when one thread is inside a write window, never do both hold, and
    never are two threads inside a write window.
  */
  lemma ReadersExcludeWriters(n: nat, events: seq<Event>, f: FileId)
    requires IsRun(Initial(n), events) && f < |Reached(Initial(n), events).files|
    ensures var s := Reached(Initial(n), events);
      && s.files[f].activeReaders == Readers(s.threads, f)
      && s.files[f].isBeingWritten == (Writers(s.threads, f) == 1) && Writers(s.threads, f) <= 1
      && (s.files[f].isBeingWritten ==> Readers(s.threads, f) == 0)
    ensures var threads := Reached(Initial(n), events).threads;
      forall u, v :: 0 <= u < |threads| && 0 <= v < |threads| && InWrite(threads[u], f) ==>
        !InRead(threads[v], f) && (InWrite(threads[v], f) ==> u == v)
  {
    hide IsRun, Reached, InRead, InWrite;
    InitialInv(n);
    RunKeepsInv(Initial(n), events);
    var s := Reached(Initial(n), events);
    assert FileOk(s, f);
    forall u, v | 0 <= u < |s.threads| && 0 <= v < |s.threads| && InWrite(s.threads[u], f)
      ensures !InRead(s.threads[v], f) && (InWrite(s.threads[v], f) ==> u == v)
    {
      WriterIsAlone(s, f, u, v);
    }
  }

  /** No thread is inside a file together with one that is inside a write window of it. */
  lemma WriterIsAlone(s: State, f: FileId, u: Tid, v: Tid)
    requires f < |s.files| && FileOk(s, f) && u < |s.threads| && v < |s.threads| && InWrite(s.threads[u], f)
    ensures !InRead(s.threads[v], f) && (InWrite(s.threads[v], f) ==> u == v)
  {
    hide InRead, InWrite;
    CountsArePositive(s.threads, u, f);
    CountsArePositive(s.threads, v, f);
    if InWrite(s.threads[v], f) && u != v {
      TwoWriters(s.threads, f, if u < v then u else v, if u < v then v else u);
    }
  }

  /** Whoever refers to an unlinked file is freeing it, under its mutex. */
  lemma OnlyFreerRefers(s: State, f: FileId, u: Tid)
    requires Inv(s) && f < |s.files| && !s.files[f].linked && u < |s.threads| && Refers(s.threads[u], f)
    ensures Frees(s.threads[u], f) && s.files[f].mutex == Some(u)
  {
    assert ThreadOk(s, u);
    assert LocksOk(s.threads[u], u, s.files[f], f);
  }

  /**
    For any number of threads, files and interleavings: once a file has been unlinked, the thread that frees it is
    the only one that refers to it, at any time.
  */
  lemma UnlinkedFileHasOneUser(n: nat, events: seq<Event>, f: FileId, u: Tid, v: Tid)
    requires IsRun(Initial(n), events)
    requires f < |Reached(Initial(n), events).files| && !Reached(Initial(n), events).files[f].linked
    requires u < |Reached(Initial(n), events).threads| && Refers(Reached(Initial(n), events).threads[u], f)
    requires v < |Reached(Initial(n), events).threads| && Refers(Reached(Initial(n), events).threads[v], f)
    ensures u == v && Frees(Reached(Initial(n), events).threads[u], f)
    ensures Reached(Initial(n), events).files[f].mutex == Some(u)
  {
    hide IsRun, Reached, Inv, Refers, Frees;
    InitialInv(n);
    RunKeepsInv(Initial(n), events);
    OnlyFreerRefers(Reached(Initial(n), events), f, u);
    OnlyFreerRefers(Reached(Initial(n), events), f, v);
  }
}
