/** What follows from the invariant of the locking protocol: no lost wake-up, no deadlock, and when its assert fails. */
module ReadWriteLaws {
  import opened Prelude
  import opened ReadWrite
  import opened ReadWriteInvariant

  // ---------------------------------------------------------------- waiting

  /**
    In every reachable state a thread that is parked and has not been woken still has to wait, and it is the only
    one on its file, so that the single signal of the last reader reaches everybody there is to reach.
  */
  lemma NoWakeUpIsLost(n: nat, events: seq<Event>, u: Tid, v: Tid)
    requires IsRun(Initial(n), events)
    requires u < |Reached(Initial(n), events).threads| && v < |Reached(Initial(n), events).threads|
    requires Reached(Initial(n), events).threads[u].Parked? && Reached(Initial(n), events).threads[v].Parked?
    ensures var s := Reached(Initial(n), events);
      && s.threads[u].f < |s.files| && MustWait(s.threads[u].op, s.files[s.threads[u].f])
      && (s.threads[u].f == s.threads[v].f ==> u == v)
  {
    hide IsRun, Reached, Inv;
    InitialInv(n);
    RunKeepsInv(Initial(n), events);
    var s := Reached(Initial(n), events);
    ParkedWaits(s, u);
    if s.threads[u].f == s.threads[v].f {
      AtMostOneParked(s, s.threads[u].f, u, v);
    }
  }

  lemma ParkedWaits(s: State, u: Tid)
    requires Inv(s) && u < |s.threads| && s.threads[u].Parked?
    ensures s.threads[u].f < |s.files| && MustWait(s.threads[u].op, s.files[s.threads[u].f])
  {
    assert ThreadOk(s, u);
  }

  // ---------------------------------------------------------------- progress

  /** A step that is neither a new request nor a spurious wake-up. */
  predicate Moves(s: State, t: Tid, a: Action) {
    Enabled(s, t, a) && !a.Start? && !a.Spurious?
  }

  /** The thread waits for nothing but, at most, the mutex of its file. */
  predicate Ready(pc: Pc) {
    !pc.Idle? && !pc.WantStore? && !pc.WantOrdering? && !pc.Parked?
  }

  lemma SomebodyToWake(s: State, pc: Pc) returns (woken: Option<Tid>)
    requires pc.Out? && pc.f < |s.files|
    ensures Wakes(s, pc, woken)
  {
    woken := None;
    if pc.op.Read? && s.files[pc.f].activeReaders == 1 {
      if u: nat :| u < |s.threads| && IsParked(s.threads[u], pc.f) {
        woken := Some(u);
      }
    }
  }

  /** Whoever holds the mutex of a file can go on. */
  lemma MutexHolderMoves(s: State, u: Tid, f: FileId) returns (a: Action)
    requires !s.aborted && u < |s.threads| && f < |s.files| && HoldsMutex(s.threads[u], f)
    ensures Moves(s, u, a)
  {
    var pc := s.threads[u];
    match pc {
      case Got(_, _) => a := DropStore;
      case Check(_, _) => a := Admit;
      case Loop(_, _) => a := Turn;
      case Out(_, _) =>
        var woken := SomebodyToWake(s, pc);
        a := Update(woken);
      case _ => a := Release;
    }
  }

  /** A thread that wants only the mutex of its file gets it, or its holder can go on. */
  lemma MutexOrHolder(s: State, t: Tid, a: Action) returns (u: Tid, b: Action)
    requires Inv(s) && !s.aborted && t < |s.threads| && HasFile(s.threads[t]) && s.threads[t].f < |s.files|
    requires s.files[s.threads[t].f].mutex.None? ==> Moves(s, t, a)
    ensures Moves(s, u, b)
  {
    var f := s.threads[t].f;
    assert FileOk(s, f);
    match s.files[f].mutex {
      case None => u, b := t, a;
      case Some(owner) =>
        assert ThreadOk(s, owner) && LocksOk(s.threads[owner], owner, s.files[f], f);
        u := owner;
        b := MutexHolderMoves(s, owner, f);
    }
  }

  lemma ReadyMoves(s: State, t: Tid) returns (u: Tid, a: Action)
    requires Inv(s) && !s.aborted && t < |s.threads| && Ready(s.threads[t])
    ensures Moves(s, u, a)
  {
    var pc := s.threads[t];
    assert ThreadOk(s, t);
    if pc.HaveStore? {
      u, a := t, GiveUp;
    } else if pc.WantMutex? || pc.Waking? {
      u, a := MutexOrHolder(s, t, GetMutex);
    } else if pc.Window? {
      u, a := MutexOrHolder(s, t, Leave);
    } else if pc.Fin? {
      u, a := t, Finish;
    } else if pc.DropOrderingLast? {
      u, a := t, Release;
    } else {
      u := t;
      a := MutexHolderMoves(s, t, pc.f);
    }
  }

  /** Somebody is inside the file a thread is parked on: ready to go on, or evicting other files meanwhile. */
  lemma WhoIsInside(s: State, t: Tid) returns (u: Tid)
    requires Inv(s) && t < |s.threads| && s.threads[t].Parked?
    ensures u < |s.threads| && s.threads[t].f < |s.files|
    ensures Ready(s.threads[u]) || (!s.threads[u].Idle? && s.threads[u].op == Destroy(Some(s.threads[t].f)))
  {
    ParkedWaits(s, t);
    var f := s.threads[t].f;
    assert FileOk(s, f);
    if s.files[f].activeReaders > 0 {
      u := SomebodyReads(s.threads, f);
    } else {
      u := SomebodyWrites(s.threads, f);
    }
  }

  /** A thread that is evicting holds the store mutex, and never evicts the file it is writing to. */
  lemma EvictingHoldsStore(s: State, u: Tid, f: FileId)
    requires Inv(s) && u < |s.threads| && !s.threads[u].Idle? && s.threads[u].op == Destroy(Some(f))
    ensures s.store == Some(u) && HasFile(s.threads[u]) && s.threads[u].f != f
  {
    assert ThreadOk(s, u);
  }

  /** Nobody waits on the file that the holder of the store mutex is after, except for threads that can go on. */
  lemma ParkedUnderStore(s: State, t: Tid, v: Tid) returns (u: Tid, a: Action)
    requires Inv(s) && !s.aborted && t < |s.threads| && v < |s.threads|
    requires s.store == Some(t) && HasFile(s.threads[t]) && s.threads[v].Parked? && s.threads[v].f == s.threads[t].f
    ensures Moves(s, u, a)
  {
    hide Inv, Ready;
    var w := WhoIsInside(s, v);
    if Ready(s.threads[w]) {
      u, a := ReadyMoves(s, w);
    } else {
      EvictingHoldsStore(s, w, s.threads[v].f);
      assert false;
    }
  }

  /** If the ordering mutex of a file is taken, its holder waits inside the protocol of that file. */
  lemma OrderingHolder(s: State, f: FileId) returns (v: Tid)
    requires Inv(s) && f < |s.files| && s.files[f].ordering.Some?
    ensures v < |s.threads| && (Ready(s.threads[v]) || (s.threads[v].Parked? && s.threads[v].f == f))
  {
    assert FileOk(s, f);
    v := s.files[f].ordering.value;
    assert ThreadOk(s, v) && LocksOk(s.threads[v], v, s.files[f], f);
  }

  lemma StoreHolderMoves(s: State, t: Tid) returns (u: Tid, a: Action)
    requires Inv(s) && !s.aborted && t < |s.threads| && HoldsStore(s.threads[t])
    ensures Moves(s, u, a)
  {
    var pc := s.threads[t];
    assert ThreadOk(s, t);
    if Ready(pc) {
      u, a := ReadyMoves(s, t);
    } else if pc.Parked? {
      u, a := ParkedUnderStore(s, t, t);
    } else if s.files[pc.f].ordering.None? {
      u, a := t, GetOrdering;
    } else {
      var v := OrderingHolder(s, pc.f);
      if Ready(s.threads[v]) {
        u, a := ReadyMoves(s, v);
      } else {
        u, a := ParkedUnderStore(s, t, v);
      }
    }
  }

  /**
    No deadlock: as long as some thread is in the middle of a handler, some thread can take a step, without any
    new request and without any spurious wake-up.
  */
  lemma SomebodyMoves(s: State, t: Tid) returns (u: Tid, a: Action)
    requires Inv(s) && !s.aborted && t < |s.threads| && !s.threads[t].Idle?
    ensures Moves(s, u, a)
  {
    var pc := s.threads[t];
    assert ThreadOk(s, t);
    if HoldsStore(pc) {
      u, a := StoreHolderMoves(s, t);
    } else if Ready(pc) {
      u, a := ReadyMoves(s, t);
    } else if pc.Parked? {
      var w := WhoIsInside(s, t);
      if Ready(s.threads[w]) {
        u, a := ReadyMoves(s, w);
      } else {
        EvictingHoldsStore(s, w, pc.f);
        assert ThreadOk(s, w);
        u, a := StoreHolderMoves(s, w);
      }
    } else if s.store.None? {
      u, a := t, GetStore;
    } else {
      assert ThreadOk(s, s.store.value);
      u, a := StoreHolderMoves(s, s.store.value);
    }
  }

  lemma NoDeadlock(n: nat, events: seq<Event>, t: Tid) returns (u: Tid, a: Action)
    requires IsRun(Initial(n), events) && !Reached(Initial(n), events).aborted
    requires t < |Reached(Initial(n), events).threads| && !Reached(Initial(n), events).threads[t].Idle?
    ensures Moves(Reached(Initial(n), events), u, a)
  {
    hide IsRun, Reached, Inv;
    InitialInv(n);
    RunKeepsInv(Initial(n), events);
    u, a := SomebodyMoves(Reached(Initial(n), events), t);
  }

  // ---------------------------------------------------------------- unlocking and leaving

  /** Nobody reads the file or is in a write window of it. */
  ghost predicate Deserted(threads: seq<Pc>, f: FileId) {
    forall v :: 0 <= v < |threads| ==> !InRead(threads[v], f) && !InWrite(threads[v], f)
  }

  /** The flags of the file say so. */
  predicate NoFlags(file: File) {
    file.activeReaders == 0 && !file.isBeingWritten
  }

  lemma NoReadersIff(s: State, f: FileId)
    requires f < |s.files| && FileOk(s, f)
    ensures s.files[f].activeReaders == 0 <==> forall v :: 0 <= v < |s.threads| ==> !InRead(s.threads[v], f)
  {
    hide InRead, InWrite;
    if s.files[f].activeReaders == 0 {
      forall v | 0 <= v < |s.threads| ensures !InRead(s.threads[v], f) {
        CountsArePositive(s.threads, v, f);
      }
    } else {
      var u := SomebodyReads(s.threads, f);
      assert InRead(s.threads[u], f);
    }
  }

  lemma NoWriterIff(s: State, f: FileId)
    requires f < |s.files| && FileOk(s, f)
    ensures !s.files[f].isBeingWritten <==> forall v :: 0 <= v < |s.threads| ==> !InWrite(s.threads[v], f)
  {
    hide InRead, InWrite;
    if !s.files[f].isBeingWritten {
      forall v | 0 <= v < |s.threads| ensures !InWrite(s.threads[v], f) {
        CountsArePositive(s.threads, v, f);
      }
    } else {
      var u := SomebodyWrites(s.threads, f);
      assert InWrite(s.threads[u], f);
    }
  }

  lemma DesertedIff(s: State, f: FileId)
    requires f < |s.files| && FileOk(s, f)
    ensures NoFlags(s.files[f]) <==> Deserted(s.threads, f)
  {
    hide InRead, InWrite;
    assert FlagsOk(s.threads, s.files[f], f);
    NoReadersIff(s, f);
    NoWriterIff(s, f);
  }

  /**
    A read gets past its wait exactly when nobody is in a write window of the file, a write exactly when nobody reads
    it, and a lock, an unlock, a close, an exit and a destruction exactly when nobody is inside at all.
  */
  lemma PassesIff(s: State, t: Tid)
    requires Inv(s) && Enabled(s, t, Turn)
    ensures var op, f := s.threads[t].op, s.threads[t].f;
      !After(s, t, Turn).threads[t].Parked? <==>
        if op.Read? then forall v :: 0 <= v < |s.threads| ==> !InWrite(s.threads[v], f)
        else if op.Write? then forall v :: 0 <= v < |s.threads| ==> !InRead(s.threads[v], f)
        else Deserted(s.threads, f)
  {
    hide InRead, InWrite, Deserted;
    var f := s.threads[t].f;
    assert ThreadOk(s, t) && FileOk(s, f);
    NoReadersIff(s, f);
    NoWriterIff(s, f);
    DesertedIff(s, f);
  }

  /** A thread that has passed the wait of an unlock or an exit, and still has the mutex of the file. */
  predicate HandsOver(pc: Pc) {
    (pc.DropOrdering? || pc.DropMutex?) && (pc.op.Unlock? || pc.op.Exit?)
  }

  /** While a lock is handed over the flags of its file say that nobody is inside. */
  ghost predicate HandedOverAlone(s: State) {
    forall t {:trigger HandsOver(s.threads[t])} :: 0 <= t < |s.threads| && HandsOver(s.threads[t]) ==>
      s.threads[t].f < |s.files| && NoFlags(s.files[s.threads[t].f])
  }

  /** Only a thread that has the mutex of a file changes its flags. */
  lemma FlagsByMutexHolder(s: State, t: Tid, a: Action, f: FileId)
    requires Inv(s) && Enabled(s, t, a) && f < |s.files| && !HoldsMutex(s.threads[t], f)
    ensures var s' := After(s, t, a);
      f < |s'.files| && s'.files[f].activeReaders == s.files[f].activeReaders
      && s'.files[f].isBeingWritten == s.files[f].isBeingWritten
  {
    assert ThreadOk(s, t);
  }

  /** No other thread starts to hand over a lock, or stops. */
  lemma OthersHandOver(s: State, t: Tid, a: Action, u: Tid)
    requires Enabled(s, t, a) && u < |s.threads| && u != t
    ensures |After(s, t, a).threads| == |s.threads|
    ensures HandsOver(After(s, t, a).threads[u]) ==> After(s, t, a).threads[u] == s.threads[u]
  {
  }

  lemma OneHasTheMutex(s: State, t: Tid, u: Tid, f: FileId)
    requires Inv(s) && t < |s.threads| && u < |s.threads| && t != u && f < |s.files| && HoldsMutex(s.threads[u], f)
    ensures !HoldsMutex(s.threads[t], f)
  {
    assert ThreadOk(s, t) && ThreadOk(s, u);
    assert LocksOk(s.threads[t], t, s.files[f], f) && LocksOk(s.threads[u], u, s.files[f], f);
  }

  /** Whoever hands over a lock after its own step has just passed its wait, or has only given back a mutex. */
  lemma OwnHandOver(s: State, t: Tid, a: Action)
    requires Inv(s) && HandedOverAlone(s) && Enabled(s, t, a) && HandsOver(After(s, t, a).threads[t])
    ensures var s' := After(s, t, a);
      s'.threads[t].f < |s'.files| && NoFlags(s'.files[s'.threads[t].f])
  {
    assert ThreadOk(s, t);
    if a.Turn? {
      assert FileOk(s, s.threads[t].f);
    } else {
      assert HandsOver(s.threads[t]);
    }
  }

  lemma StepHandsOverAlone(s: State, t: Tid, a: Action)
    requires Inv(s) && HandedOverAlone(s) && Enabled(s, t, a)
    ensures HandedOverAlone(After(s, t, a))
  {
    hide After, Inv, Enabled;
    var s' := After(s, t, a);
    assert t < |s.threads| by {
      WhoSteps(s, t, a);
    }
    forall u | 0 <= u < |s'.threads| && HandsOver(s'.threads[u])
      ensures s'.threads[u].f < |s'.files| && NoFlags(s'.files[s'.threads[u].f])
    {
      if u == t {
        OwnHandOver(s, t, a);
      } else {
        SameThreads(s, t, a);
        OthersHandOver(s, t, a, u);
        var f := s.threads[u].f;
        OneHasTheMutex(s, t, u, f);
        FlagsByMutexHolder(s, t, a, f);
      }
    }
  }

  lemma WhoSteps(s: State, t: Tid, a: Action)
    requires Enabled(s, t, a)
    ensures t < |s.threads|
  {
  }

  lemma SameThreads(s: State, t: Tid, a: Action)
    requires Enabled(s, t, a)
    ensures |After(s, t, a).threads| == |s.threads|
  {
  }

  lemma {:induction false} RunHandsOverAlone(s: State, events: seq<Event>)
    requires Inv(s) && HandedOverAlone(s) && IsRun(s, events)
    ensures HandedOverAlone(Reached(s, events))
    decreases |events|
  {
    hide Inv, After, Enabled, HandedOverAlone;
    if events != [] {
      StepKeepsInv(s, events[0].t, events[0].a);
      StepHandsOverAlone(s, events[0].t, events[0].a);
      RunHandsOverAlone(After(s, events[0].t, events[0].a), events[1..]);
    }
  }

  /**
    Over every run: from where an unlock or an exit has passed its wait until it has given back the mutex of the file,
    nobody reads the file and nobody writes to it, locks it or closes it.
  */
  lemma NobodyInsideWhileUnlocking(n: nat, events: seq<Event>, t: Tid)
    requires IsRun(Initial(n), events)
    requires t < |Reached(Initial(n), events).threads| && HandsOver(Reached(Initial(n), events).threads[t])
    ensures Deserted(Reached(Initial(n), events).threads, Reached(Initial(n), events).threads[t].f)
  {
    hide IsRun, Reached, Inv, Deserted, FileOk;
    InitialInv(n);
    NobodyHandsOver(n);
    RunKeepsInv(Initial(n), events);
    RunHandsOverAlone(Initial(n), events);
    var s := Reached(Initial(n), events);
    FileIsOk(s, s.threads[t].f);
    DesertedIff(s, s.threads[t].f);
  }

  lemma NobodyHandsOver(n: nat)
    ensures HandedOverAlone(Initial(n))
  {
  }

  lemma FileIsOk(s: State, f: FileId)
    requires Inv(s) && f < |s.files|
    ensures FileOk(s, f)
  {
  }

  // ---------------------------------------------------------------- who holds the store, and who signals

  /**
    Over every run, of the threads that have the mutex of a file behind them, those that write, close, open, exit or
    destroy hold the store mutex, and those that read, lock, unlock or test do not: they wait and work without it.
  */
  lemma StoreWhileBusy(n: nat, events: seq<Event>, t: Tid)
    requires IsRun(Initial(n), events) && t < |Reached(Initial(n), events).threads|
    ensures var s := Reached(Initial(n), events);
      var pc := s.threads[t];
      HasFile(pc) && !pc.WantOrdering? && !pc.WantMutex? && !pc.Got? ==>
        (s.store == Some(t) <==> pc.op.Write? || pc.op.Close? || pc.op.Open? || pc.op.Exit? || pc.op.Destroy?)
  {
    hide IsRun, Reached;
    InitialInv(n);
    RunKeepsInv(Initial(n), events);
    assert ThreadOk(Reached(Initial(n), events), t);
  }

  /** A reader that leaves wakes a thread only if no reader is left inside. */
  lemma OnlyTheLastReaderSignals(s: State, t: Tid, woken: Option<Tid>)
    requires Inv(s) && Enabled(s, t, Update(woken)) && s.threads[t].op.Read?
    ensures woken.Some? ==>
      forall v :: 0 <= v < |s.threads| ==> !InRead(After(s, t, Update(woken)).threads[v], s.threads[t].f)
  {
    hide After, Inv, InRead, InWrite;
    var s', f := After(s, t, Update(woken)), s.threads[t].f;
    if woken.Some? {
      StepKeepsInv(s, t, Update(woken));
      LastReaderLeaves(s, t, woken);
      SameThreads(s, t, Update(woken));
      FileIsOk(s', f);
      NoReadersIff(s', f);
    }
  }

  lemma LastReaderLeaves(s: State, t: Tid, woken: Option<Tid>)
    requires Inv(s) && Enabled(s, t, Update(woken)) && s.threads[t].op.Read? && woken.Some?
    ensures var s', f := After(s, t, Update(woken)), s.threads[t].f;
      f < |s'.files| && s'.files[f].activeReaders == 0
  {
  }

  // ---------------------------------------------------------------- writing without the store mutex

  /** While a thread holds the store mutex, nobody else writes contents: other writers can only be locking. */
  lemma OnlyLocksWriteWithoutStore(s: State, t: Tid, u: Tid, f: FileId)
    requires Inv(s) && t < |s.threads| && u < |s.threads| && u != t
    requires HoldsStore(s.threads[t]) && InWrite(s.threads[u], f)
    ensures Inside(s.threads[u], f) && s.threads[u].op.Lock?
  {
    assert ThreadOk(s, t) && ThreadOk(s, u);
  }

  /** The assert of a write fails exactly when some other thread is in the write window of a lock request. */
  lemma AssertFailsIff(s: State, t: Tid)
    requires Inv(s) && Enabled(s, t, Admit) && s.threads[t].op.Write?
    ensures After(s, t, Admit).aborted <==>
      exists u :: 0 <= u < |s.threads| && Inside(s.threads[u], s.threads[t].f) && s.threads[u].op.Lock?
  {
    var f := s.threads[t].f;
    assert ThreadOk(s, t) && FileOk(s, f);
    if s.files[f].isBeingWritten {
      var u := SomebodyWrites(s.threads, f);
      OnlyLocksWriteWithoutStore(s, t, u, f);
    }
    forall u | 0 <= u < |s.threads| && Inside(s.threads[u], f) && s.threads[u].op.Lock?
      ensures s.files[f].isBeingWritten
    {
      CountsArePositive(s.threads, u, f);
    }
  }

  lemma {:induction false} Extend(s: State, events: seq<Event>, t: Tid, a: Action)
    requires IsRun(s, events) && Enabled(Reached(s, events), t, a)
    ensures IsRun(s, events + [Event(t, a)])
    ensures Reached(s, events + [Event(t, a)]) == After(Reached(s, events), t, a)
    decreases |events|
  {
    hide After, Enabled;
    if events == [] {
      assert [Event(t, a)][1..] == [];
    } else {
      assert (events + [Event(t, a)])[1..] == events[1..] + [Event(t, a)];
      Extend(After(s, events[0].t, events[0].a), events[1..], t, a);
    }
  }

  /** The file after one thread has created it. */
  function Free(): File {
    File(true, None, None, 0, false)
  }

  lemma FileGetsCreated() returns (events: seq<Event>)
    ensures IsRun(Initial(2), events) && Reached(Initial(2), events) == State(None, [Free()], [Idle, Idle], false)
  {
    events := [];
    assert Reached(Initial(2), events) == State(None, [], [Idle, Idle], false);
    Extend(Initial(2), events, 0, Start(Open));
    events := events + [Event(0, Start(Open))];
    assert Reached(Initial(2), events) == State(None, [], [WantStore(Open), Idle], false);
    Extend(Initial(2), events, 0, GetStore);
    events := events + [Event(0, GetStore)];
    assert Reached(Initial(2), events) == State(Some(0), [], [HaveStore(Open), Idle], false);
    Extend(Initial(2), events, 0, Create);
    events := events + [Event(0, Create)];
    assert Reached(Initial(2), events) == State(Some(0), [Free()], [Fin(Open), Idle], false);
    Extend(Initial(2), events, 0, Finish);
    events := events + [Event(0, Finish)];
  }

  /** The file while thread 0 has its ordering mutex, or both of its mutexes. */
  function Ordered(): File {
    Free().(ordering := Some(0))
  }

  function Taken(): File {
    Free().(ordering := Some(0), mutex := Some(0))
  }

  /** From before a lock request to where it has picked its file. */
  lemma LockPicksItsFile(before: seq<Event>) returns (events: seq<Event>)
    requires IsRun(Initial(2), before) && Reached(Initial(2), before) == State(None, [Free()], [Idle, Idle], false)
    ensures IsRun(Initial(2), events)
    ensures Reached(Initial(2), events) == State(Some(0), [Free()], [WantOrdering(Lock, 0), Idle], false)
  {
    hide IsRun, Reached;
    events := before;
    Extend(Initial(2), events, 0, Start(Lock));
    events := events + [Event(0, Start(Lock))];
    assert Reached(Initial(2), events) == State(None, [Free()], [WantStore(Lock), Idle], false);
    Extend(Initial(2), events, 0, GetStore);
    events := events + [Event(0, GetStore)];
    assert Reached(Initial(2), events) == State(Some(0), [Free()], [HaveStore(Lock), Idle], false);
    Extend(Initial(2), events, 0, Pick(0));
    events := events + [Event(0, Pick(0))];
  }

  /** From before a lock request to where it has dropped the store mutex. */
  lemma LockGetsItsFile(before: seq<Event>) returns (events: seq<Event>)
    requires IsRun(Initial(2), before) && Reached(Initial(2), before) == State(None, [Free()], [Idle, Idle], false)
    ensures IsRun(Initial(2), events)
    ensures Reached(Initial(2), events) == State(None, [Taken()], [Loop(Lock, 0), Idle], false)
  {
    hide IsRun, Reached;
    events := LockPicksItsFile(before);
    Extend(Initial(2), events, 0, GetOrdering);
    events := events + [Event(0, GetOrdering)];
    assert Reached(Initial(2), events) == State(Some(0), [Ordered()], [WantMutex(Lock, 0), Idle], false);
    Extend(Initial(2), events, 0, GetMutex);
    events := events + [Event(0, GetMutex)];
    assert Reached(Initial(2), events) == State(Some(0), [Taken()], [Got(Lock, 0), Idle], false);
    Extend(Initial(2), events, 0, DropStore);
    events := events + [Event(0, DropStore)];
  }

  /** The lock request enters its window, with the flag set and nothing held. */
  lemma LockEnters(before: seq<Event>) returns (events: seq<Event>)
    requires IsRun(Initial(2), before)
    requires Reached(Initial(2), before) == State(None, [Taken()], [Loop(Lock, 0), Idle], false)
    ensures IsRun(Initial(2), events)
    ensures Reached(Initial(2), events)
      == State(None, [Free().(isBeingWritten := true)], [Window(Lock, 0), Idle], false)
  {
    hide IsRun, Reached;
    events := before;
    Extend(Initial(2), events, 0, Turn);
    events := events + [Event(0, Turn)];
    assert Reached(Initial(2), events)
      == State(None, [Taken().(isBeingWritten := true)], [DropOrdering(Lock, 0, ToWindow), Idle], false);
    Extend(Initial(2), events, 0, Release);
    events := events + [Event(0, Release)];
    assert Reached(Initial(2), events)
      == State(None, [Free().(mutex := Some(0), isBeingWritten := true)], [DropMutex(Lock, 0, ToWindow), Idle], false);
    Extend(Initial(2), events, 0, Release);
    events := events + [Event(0, Release)];
  }

  /** A write request picks the file while the lock request is in its window. */
  lemma WritePicksItsFile(before: seq<Event>) returns (events: seq<Event>)
    requires IsRun(Initial(2), before)
    requires Reached(Initial(2), before)
      == State(None, [Free().(isBeingWritten := true)], [Window(Lock, 0), Idle], false)
    ensures IsRun(Initial(2), events)
    ensures Reached(Initial(2), events)
      == State(Some(1), [Free().(isBeingWritten := true)], [Window(Lock, 0), WantOrdering(Write, 0)], false)
  {
    hide IsRun, Reached;
    events := before;
    Extend(Initial(2), events, 1, Start(Write));
    events := events + [Event(1, Start(Write))];
    assert Reached(Initial(2), events)
      == State(None, [Free().(isBeingWritten := true)], [Window(Lock, 0), WantStore(Write)], false);
    Extend(Initial(2), events, 1, GetStore);
    events := events + [Event(1, GetStore)];
    assert Reached(Initial(2), events)
      == State(Some(1), [Free().(isBeingWritten := true)], [Window(Lock, 0), HaveStore(Write)], false);
    Extend(Initial(2), events, 1, Pick(0));
    events := events + [Event(1, Pick(0))];
  }

  /** The assert of a write can fail: a write request gets to it while a lock request is in its window. */
  lemma AssertCanFail() returns (events: seq<Event>)
    ensures IsRun(Initial(2), events) && Reached(Initial(2), events).aborted
  {
    hide IsRun, Reached;
    events := FileGetsCreated();
    events := LockGetsItsFile(events);
    events := LockEnters(events);
    events := WritePicksItsFile(events);
    var file := Free().(isBeingWritten := true);
    Extend(Initial(2), events, 1, GetOrdering);
    events := events + [Event(1, GetOrdering)];
    assert Reached(Initial(2), events)
      == State(Some(1), [file.(ordering := Some(1))], [Window(Lock, 0), WantMutex(Write, 0)], false);
    Extend(Initial(2), events, 1, GetMutex);
    events := events + [Event(1, GetMutex)];
    assert Reached(Initial(2), events)
      == State(Some(1), [file.(ordering := Some(1), mutex := Some(1))], [Window(Lock, 0), Check(Write, 0)], false);
    Extend(Initial(2), events, 1, Admit);
    events := events + [Event(1, Admit)];
  }
}
