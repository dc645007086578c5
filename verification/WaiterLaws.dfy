/** No blocked client is lost: who waits, who is granted a lock and who is told that the file is gone. */
module WaiterLaws {
  import opened Prelude
  import RunLength
  import opened StoreModel
  import opened StoreInvariant
  import opened HandlerLaws
  import opened StoreRefinement
  import opened StoreRuns

  // ---------------------------------------------------------------- counting

  /** How often `w` occurs. */
  function Count(fds: seq<Fd>, w: Fd): nat {
    if fds == [] then 0 else (if fds[0] == w then 1 else 0) + Count(fds[1..], w)
  }

  lemma {:induction false} CountOfAppend(a: seq<Fd>, b: seq<Fd>, w: Fd)
    ensures Count(a + b, w) == Count(a, w) + Count(b, w)
  {
    if a == [] {
      assert a + b == b;
    } else {
      CountOfAppend(a[1..], b, w);
      assert (a + b)[1..] == a[1..] + b;
    }
  }

  lemma {:induction false} CountOfNoDup(fds: seq<Fd>, w: Fd)
    requires NoDup(fds)
    ensures Count(fds, w) == if w in fds then 1 else 0
  {
    if fds != [] {
      assert fds == [fds[0]] + fds[1..];
      NoDupCons(fds[0], fds[1..]);
      CountOfNoDup(fds[1..], w);
    }
  }

  lemma {:induction false} CountIsPositive(fds: seq<Fd>, w: Fd)
    ensures Count(fds, w) > 0 <==> w in fds
  {
    if fds != [] {
      assert fds == [fds[0]] + fds[1..];
      CountIsPositive(fds[1..], w);
    }
  }

  /** How often `w` waits, over all queues. */
  function Waiting(files: seq<File>, w: Fd): nat {
    if files == [] then 0 else Count(files[0].pending, w) + Waiting(files[1..], w)
  }

  lemma {:induction false} WaitingIsCount(files: seq<File>, w: Fd)
    ensures Count(Waiters(files), w) == Waiting(files, w)
  {
    if files != [] {
      WaitingIsCount(files[1..], w);
      CountOfAppend(files[0].pending, Waiters(files[1..]), w);
    }
  }

  lemma {:induction false} WaitingOfAppend(a: seq<File>, b: seq<File>, w: Fd)
    ensures Waiting(a + b, w) == Waiting(a, w) + Waiting(b, w)
  {
    if a == [] {
      assert a + b == b;
    } else {
      WaitingOfAppend(a[1..], b, w);
      assert (a + b)[1..] == a[1..] + b;
    }
  }

  lemma NobodyThere(w: Fd)
    ensures Count([], w) == 0
  {
  }

  lemma WaitingOfOne(f: File, w: Fd)
    ensures Waiting([f], w) == Count(f.pending, w)
  {
    assert Waiting([f], w) == Count(f.pending, w) + Waiting([], w);
  }

  lemma WaitingAround(files: seq<File>, i: nat, w: Fd)
    requires i < |files|
    ensures Waiting(files, w) == Waiting(files[..i], w) + Count(files[i].pending, w) + Waiting(files[i + 1..], w)
  {
    assert files == files[..i] + files[i..];
    WaitingOfAppend(files[..i], files[i..], w);
  }

  lemma WaitingOfUpdate(files: seq<File>, i: nat, f: File, w: Fd)
    requires i < |files|
    ensures Waiting(files[i := f], w) + Count(files[i].pending, w) == Waiting(files, w) + Count(f.pending, w)
  {
    WaitingAround(files, i, w);
    WaitingAround(files[i := f], i, w);
    assert files[i := f][..i] == files[..i] && files[i := f][i + 1..] == files[i + 1..];
  }

  lemma WaitingOfRemoval(files: seq<File>, i: nat, w: Fd)
    requires i < |files|
    ensures Waiting(RemoveAt(files, i), w) + Count(files[i].pending, w) == Waiting(files, w)
  {
    WaitingAround(files, i, w);
    WaitingOfAppend(files[..i], files[i + 1..], w);
  }

  lemma {:induction false} WaitingOfSame(a: seq<File>, b: seq<File>, w: Fd)
    requires |a| == |b| && forall i :: 0 <= i < |a| ==> a[i].pending == b[i].pending
    ensures Waiting(a, w) == Waiting(b, w)
  {
    if a != [] {
      WaitingOfSame(a[1..], b[1..], w);
    }
  }

  lemma {:induction false} WaitingOfEviction(s: Store, spare: Path, growth: int, w: Fd)
    ensures Waiting(EvictUntilFits(s, spare, growth).0.files, w) + Waiting(EvictUntilFits(s, spare, growth).1, w)
      == Waiting(s.files, w)
    decreases |s.files|
  {
    var v := Victim(s.files, s.algo, spare);
    if !(s.currStorageSize + growth <= s.maxStorageSize || v == |s.files|) {
      WaitingOfRemoval(s.files, v, w);
      WaitingOfEviction(EvictOne(s, spare), spare, growth, w);
      WaitingOfAppend([s.files[v]], EvictUntilFits(EvictOne(s, spare), spare, growth).1, w);
      WaitingOfOne(s.files[v], w);
    }
  }

  /** Under the invariant every client waits at most once, over all queues. */
  lemma {:induction false} WaitsOnce(files: seq<File>, w: Fd)
    requires FilesOk(files)
    ensures Waiting(files, w) == if Waits(files, w) then 1 else 0
  {
    if files != [] {
      var f, rest := files[0], files[1..];
      assert FileOk(files[0]);
      TailIsOk(files);
      WaitsOnce(rest, w);
      CountOfNoDup(f.pending, w);
      forall i | 0 <= i < |rest| && w in f.pending ensures w !in rest[i].pending {
        assert rest[i].pending == files[i + 1].pending;
      }
      forall i | 0 <= i < |rest| && w in rest[i].pending ensures Waits(files, w) {
        assert w in files[i + 1].pending;
      }
      forall i | 0 <= i < |files| && w in files[i].pending && w !in f.pending ensures Waits(rest, w) {
        assert rest[i - 1] == files[i];
      }
    }
  }

  lemma TailIsOk(files: seq<File>)
    requires FilesOk(files) && files != []
    ensures FilesOk(files[1..])
  {
    forall i | 0 <= i < |files| - 1 ensures FileOk(files[1..][i]) {
      assert FileOk(files[i + 1]);
    }
  }

  // ---------------------------------------------------------------- conservation

  /** The client that this step puts in a queue, if any. */
  function Arrival(c: Call, reply: Reply, w: Fd): nat {
    if reply.Waiting? && c.fd == w then 1 else 0
  }

  /** Whoever waited, or starts to, either waits afterwards, or is told that the file is gone, or has the lock. */
  ghost predicate Conserves(s: Store, c: Call, w: Fd) {
    Waiting(s.files, w) + Arrival(c, Step(s, c).reply, w)
    == Waiting(Step(s, c).store.files, w) + Count(Step(s, c).gone, w) + Count(Step(s, c).granted, w)
  }

  lemma EditConserves(s: Store, c: Call, i: nat, f: File, w: Fd)
    requires i < |s.files| && Step(s, c).store.files == s.files[i := f] && Step(s, c).gone == []
    requires Count(s.files[i].pending, w) + Arrival(c, Step(s, c).reply, w)
      == Count(f.pending, w) + Count(Step(s, c).granted, w)
    ensures Conserves(s, c, w)
  {
    WaitingOfUpdate(s.files, i, f, w);
  }

  lemma LockConserves(s: Store, c: Call, w: Fd)
    requires c.req.ReqLock?
    ensures Conserves(s, c, w)
  {
    var i := IndexOf(s.files, c.req.path);
    if c.req.path != [] && i < |s.files| {
      CountOfAppend(s.files[i].pending, [c.fd], w);
      assert Count([c.fd], w) == (if c.fd == w then 1 else 0) + Count([], w);
      EditConserves(s, c, i, Step(s, c).store.files[i], w);
    }
  }

  lemma UnlockConserves(s: Store, c: Call, w: Fd)
    requires c.req.ReqUnlock?
    ensures Conserves(s, c, w)
  {
    var i := IndexOf(s.files, c.req.path);
    if c.req.path != [] && c.fd > 0 && i < |s.files| {
      var pending := s.files[i].pending;
      if pending != [] {
        assert pending[..1] == [pending[0]];
        assert Count([pending[0]], w) == (if pending[0] == w then 1 else 0) + Count([], w);
      }
      EditConserves(s, c, i, Step(s, c).store.files[i], w);
    }
  }

  lemma UseConserves(s: Store, c: Call, w: Fd)
    requires c.req.ReqRead? || c.req.ReqClose?
    ensures Conserves(s, c, w)
  {
    var i := IndexOf(s.files, Target(c.req));
    if !Step(s, c).reply.Failed? {
      EditConserves(s, c, i, Step(s, c).store.files[i], w);
    }
  }

  lemma CreateConserves(s: Store, c: Call, w: Fd)
    requires c.req.ReqOpen? && c.req.create
    ensures Conserves(s, c, w)
  {
    hide Count, IndexOf, Victim;
    var f, v := NewFile(c.req.path, c.req.lock, c.fd, c.now), Victim(s.files, s.algo, []);
    WaitingOfOne(f, w);
    assert Count(f.pending, w) == 0 && Count([], w) == 0 by {
      NobodyThere(w);
    }
    if s.currFileNum == s.maxFileNum && v < |s.files| {
      var rest := RemoveAt(s.files, v);
      WaitingOfRemoval(s.files, v, w);
      WaitingOfSame(rest, ResetRefCounts(rest), w);
      WaitingOfAppend(ResetRefCounts(rest), [f], w);
    } else {
      WaitingOfAppend(s.files, [f], w);
    }
  }

  lemma OpenConserves(s: Store, c: Call, w: Fd)
    requires c.req.ReqOpen?
    ensures Conserves(s, c, w)
  {
    if c.req.create {
      CreateConserves(s, c, w);
    } else if Step(s, c).reply.Done? {
      EditConserves(s, c, IndexOf(s.files, c.req.path), Step(s, c).store.files[IndexOf(s.files, c.req.path)], w);
    }
  }

  lemma RemoveConserves(s: Store, c: Call, w: Fd)
    requires c.req.ReqRemove?
    ensures Conserves(s, c, w)
  {
    hide RemoveAt, Count;
    NobodyThere(w);
    var i := IndexOf(s.files, c.req.path);
    if i < |s.files| {
      WaitingOfRemoval(s.files, i, w);
    }
  }

  lemma WaitingOfReplace(rest: Store, f: File, data: seq<Byte>, size: nat, w: Fd)
    requires DistinctPaths(rest.files) && f in rest.files
    ensures Waiting(Replace(rest, f.path, f, data, size).files, w) == Waiting(rest.files, w)
  {
    var k :| 0 <= k < |rest.files| && rest.files[k] == f;
    IndexIsUnique(ResetRefCounts(rest.files), k);
    WaitingOfSame(rest.files, Replace(rest, f.path, f, data, size).files, w);
  }

  lemma RewriteConserves(s: Store, i: nat, data: seq<Byte>, size: nat, w: Fd)
    requires i < |s.files|
    requires DistinctPaths(AfterEviction(s, i, size).files) && s.files[i] in AfterEviction(s, i, size).files
    ensures Waiting(s.files, w)
      == Waiting(Rewrite(s, i, data, size).store.files, w) + Count(Rewrite(s, i, data, size).gone, w)
  {
    hide EvictUntilFits, Count, Waiters, Replace;
    var victims := EvictUntilFits(s, s.files[i].path, size - s.files[i].contentSize).1;
    assert Waiting(AfterEviction(s, i, size).files, w) + Waiting(victims, w) == Waiting(s.files, w) by {
      WaitingOfEviction(s, s.files[i].path, size - s.files[i].contentSize, w);
    }
    assert Waiting(Rewrite(s, i, data, size).store.files, w) == Waiting(AfterEviction(s, i, size).files, w) by {
      WaitingOfReplace(AfterEviction(s, i, size), s.files[i], data, size, w);
    }
    assert Count(Rewrite(s, i, data, size).gone, w) == Waiting(victims, w) by {
      WaitingIsCount(victims, w);
    }
  }

  lemma WriteConserves(s: Store, c: Call, w: Fd)
    requires Inv(s) && c.req.ReqWrite?
    ensures Conserves(s, c, w)
  {
    if WriteAllowed(s, c) {
      var i := IndexOf(s.files, c.req.path);
      var t, size := Touched(s, i, c.now), |RunLength.Encode(s.files[i].bytes + c.req.data)|;
      WaitingOfSame(s.files, t.files, w);
      if size <= s.maxStorageSize {
        TouchedKeeps(s, i, c.now, []);
        SurvivesOwnWrite(t, i, size);
        RewriteConserves(t, i, c.req.data, size, w);
        assert Step(s, c) == Rewrite(t, i, c.req.data, size);
      } else {
        assert Step(s, c) == Fail(t, E2Big);
      }
    }
  }

  lemma {:induction false} NotThere(fds: seq<Fd>, fd: Fd)
    requires fd !in fds
    ensures RemoveFirst(fds, fd) == fds
  {
    if fds != [] {
      NotThere(fds[1..], fd);
    }
  }

  /** The heir of one file, if the departing client held it and somebody waits. */
  function Heir(f: File, fd: Fd): seq<Fd> {
    if f.lockedBy == fd && f.pending != [] then [f.pending[0]] else []
  }

  lemma LeaveConserves(f: File, fd: Fd, w: Fd)
    requires fd !in f.pending
    ensures Count(f.pending, w) == Count(Leave(f, fd).pending, w) + Count(Heir(f, fd), w)
  {
    NotThere(f.pending, fd);
    if f.lockedBy == fd && f.pending != [] {
      NotThere(f.pending[1..], fd);
      assert Count([f.pending[0]], w) == (if f.pending[0] == w then 1 else 0) + Count([], w);
    }
  }

  lemma {:induction false} LeaveAllConserves(files: seq<File>, fd: Fd, w: Fd)
    requires !Waits(files, fd)
    ensures Waiting(files, w) == Waiting(LeaveAll(files, fd), w) + Count(Heirs(files, fd), w)
  {
    if files != [] {
      var f, rest := files[0], files[1..];
      forall i | 0 <= i < |rest| ensures fd !in rest[i].pending {
        assert rest[i] == files[i + 1];
      }
      LeaveAllConserves(rest, fd, w);
      LeaveConserves(f, fd, w);
      assert LeaveAll(files, fd)[1..] == LeaveAll(rest, fd);
      CountOfAppend(Heir(f, fd), Heirs(rest, fd), w);
    }
  }

  lemma ExitConserves(s: Store, c: Call, w: Fd)
    requires c.req.ReqExit? && Admissible(s, c)
    ensures Conserves(s, c, w)
  {
    LeaveAllConserves(s.files, c.fd, w);
  }

  /** No step loses a blocked client or answers it twice. */
  lemma StepConserves(s: Store, c: Call, w: Fd)
    requires Inv(s) && Admissible(s, c)
    ensures Conserves(s, c, w)
  {
    match c.req {
      case ReqOpen(_, _, _) => OpenConserves(s, c, w);
      case ReqWrite(_, _) => WriteConserves(s, c, w);
      case ReqRemove(_) => RemoveConserves(s, c, w);
      case ReqExit => ExitConserves(s, c, w);
      case ReqReadN(_) =>
      case ReqTest(_) =>
      case ReqRead(_) => UseConserves(s, c, w);
      case ReqLock(_) => LockConserves(s, c, w);
      case ReqUnlock(_) => UnlockConserves(s, c, w);
      case ReqClose(_) => UseConserves(s, c, w);
    }
  }

  // ---------------------------------------------------------------- conservation over whole runs

  /** How many lock requests of `w` have had to wait. */
  ghost function Blocked(s: Store, calls: seq<Call>, w: Fd): nat
    decreases |calls|
  {
    if calls == [] then 0
    else Blocked(s, calls[..|calls| - 1], w) + Arrival(calls[|calls| - 1], Last(s, calls).reply, w)
  }

  /** How many answers have been sent to `w` after a wait. */
  ghost function DelayedAnswers(s: Store, calls: seq<Call>, w: Fd): nat
    decreases |calls|
  {
    if calls == [] then 0
    else DelayedAnswers(s, calls[..|calls| - 1], w) + Count(Last(s, calls).gone, w) + Count(Last(s, calls).granted, w)
  }

  lemma {:induction false} RunConserves(s: Store, calls: seq<Call>, w: Fd)
    requires Inv(s) && Proper(s, calls)
    ensures Waiting(s.files, w) + Blocked(s, calls, w)
      == Waiting(After(s, calls).files, w) + DelayedAnswers(s, calls, w)
    decreases |calls|
  {
    hide Step, Inv;
    if calls != [] {
      var n := |calls| - 1;
      ProperPrefix(s, calls, n);
      RunConserves(s, calls[..n], w);
      RunKeepsInv(s, calls[..n]);
      StepConserves(After(s, calls[..n]), calls[n], w);
    }
  }

  /**
    Over every run from an empty store, each lock request of a client that had to wait has been answered, once, or is
    the one it is waiting for.
  */
  lemma EveryWaitIsAnsweredOnce(s: Store, calls: seq<Call>, w: Fd)
    requires Inv(s) && s.files == [] && Proper(s, calls)
    ensures Blocked(s, calls, w) == DelayedAnswers(s, calls, w) + One(Waits(After(s, calls).files, w))
  {
    RunConserves(s, calls, w);
    RunKeepsInv(s, calls);
    WaitsOnce(After(s, calls).files, w);
  }

  // ---------------------------------------------------------------- answers

  lemma GoneInWrite(s: Store, c: Call)
    requires c.req.ReqWrite?
    ensures Step(s, c).gone == Waiters(Step(s, c).destroyed) && Step(s, c).granted == []
  {
  }

  /** The clients told that a file is gone are exactly those that waited for the destroyed files, queue by queue. */
  lemma GoneAreTheirWaiters(s: Store, c: Call)
    ensures Step(s, c).gone == Waiters(Step(s, c).destroyed)
    ensures Step(s, c).granted != [] ==> Step(s, c).destroyed == []
    ensures c.req.ReqUnlock? || c.req.ReqExit? ==> Step(s, c).gone == []
  {
    hide IndexOf, RemoveFirst, Victim, EvictUntilFits, Replace, RemoveAt, RunLength.Encode;
    if c.req.ReqWrite? {
      GoneInWrite(s, c);
    } else if c.req.ReqOpen? || c.req.ReqRemove? {
      var r := Step(s, c);
      if r.destroyed != [] {
        assert Waiters(r.destroyed) == r.destroyed[0].pending + Waiters([]);
      }
    }
  }

  /** How `Waits` shows in the entries. */
  lemma WaitsInView(s: Store, w: Fd)
    requires DistinctPaths(s.files)
    ensures Waits(s.files, w) <==> exists p :: View(s.files, p).Some? && w in View(s.files, p).value.queue
  {
    if Waits(s.files, w) {
      var i :| 0 <= i < |s.files| && w in s.files[i].pending;
      IndexIsUnique(s.files, i);
      assert w in View(s.files, s.files[i].path).value.queue;
    }
  }

  lemma WaitsForOneFile(s: Store, p: Path, q: Path, w: Fd)
    requires DistinctWaiters(s.files) && View(s.files, p).Some? && View(s.files, q).Some?
    requires w in View(s.files, p).value.queue && w in View(s.files, q).value.queue
    ensures p == q
  {
    var i, j := IndexOf(s.files, p), IndexOf(s.files, q);
    assert w in s.files[i].pending && w in s.files[j].pending;
  }

  /** Nobody but the requesting client enters a queue, and a queue loses only its head, to the new holder. */
  lemma EffectOnQueue(e: Entry, p: Path, c: Call, reply: Reply, destroyed: set<Path>, w: Fd)
    requires c.fd !in e.queue && !(c.req.ReqOpen? && c.req.create && reply.Done?)
    requires p !in destroyed && w != c.fd && w > 0
    ensures Effect(Some(e), p, c, reply, destroyed).Some?
    ensures var e' := Effect(Some(e), p, c, reply, destroyed).value;
      if w in e'.queue then w in e.queue
      else w in e.queue ==> e'.holder == w && (c.req.ReqUnlock? || c.req.ReqExit?)
  {
    hide RemoveFirst;
    NotThere(e.queue, c.fd);
    if e.queue != [] {
      assert e.queue == [e.queue[0]] + e.queue[1..];
      NotThere(e.queue[1..], c.fd);
    }
  }

  /** A file that exists is not created again. */
  lemma NoRecreation(s: Store, c: Call, p: Path)
    requires Inv(s) && View(s.files, p).Some?
    ensures p == Target(c.req) ==> !(c.req.ReqOpen? && c.req.create && Step(s, c).reply.Done?)
  {
    StepRefines(s, c, p);
    NoEmptyPath(s);
  }

  /** A client that waits afterwards, and did not just arrive, waited for the same file before. */
  lemma WaitedBefore(s: Store, c: Call, q: Path, w: Fd)
    requires Inv(s) && Admissible(s, c) && w != c.fd && w > 0
    requires View(Step(s, c).store.files, q).Some? && w in View(Step(s, c).store.files, q).value.queue
    ensures View(s.files, q).Some? && w in View(s.files, q).value.queue
  {
    StepRefines(s, c, q);
    if View(s.files, q).Some? {
      NotInQueue(s, q, c.fd);
      NoRecreation(s, c, q);
      if !(c.req.ReqOpen? && c.req.create) {
        EffectOnQueue(View(s.files, q).value, q, c, Step(s, c).reply, Paths(Step(s, c).destroyed), w);
      }
    }
  }

  lemma NotInQueue(s: Store, q: Path, fd: Fd)
    requires !Waits(s.files, fd) && View(s.files, q).Some?
    ensures fd !in View(s.files, q).value.queue
  {
  }

  /** The state of a client that waits for `p`, after a step. */
  ghost predicate StillWaits(s: Store, c: Call, p: Path, w: Fd) {
    var e := View(Step(s, c).store.files, p);
    e.Some? && w in e.value.queue && Count(Step(s, c).granted, w) == 0 && Count(Step(s, c).gone, w) == 0
  }

  ghost predicate HasTheLock(s: Store, c: Call, p: Path, w: Fd) {
    var e := View(Step(s, c).store.files, p);
    && e.Some? && e.value.holder == w && w !in e.value.queue
    && Count(Step(s, c).granted, w) == 1 && Count(Step(s, c).gone, w) == 0
  }

  ghost predicate FileIsGone(s: Store, c: Call, p: Path, w: Fd) {
    && p in Paths(Step(s, c).destroyed) && View(Step(s, c).store.files, p).None?
    && Count(Step(s, c).granted, w) == 0 && Count(Step(s, c).gone, w) == 1
  }

  lemma LeavesTheQueue(s: Store, c: Call, p: Path, w: Fd)
    requires Inv(s) && Admissible(s, c) && View(s.files, p).Some? && w in View(s.files, p).value.queue
    requires View(Step(s, c).store.files, p).Some? ==> w !in View(Step(s, c).store.files, p).value.queue
    ensures w != c.fd && w > 0 && Count(Step(s, c).granted, w) + Count(Step(s, c).gone, w) == 1
  {
    var i := IndexOf(s.files, p);
    assert FileOk(s.files[i]);
    assert Waits(s.files, w);
    StepConserves(s, c, w);
    StepKeepsInv(s, c);
    WaitsOnce(s.files, w);
    WaitsOnce(Step(s, c).store.files, w);
    if Waits(Step(s, c).store.files, w) {
      WaitsInView(Step(s, c).store, w);
      var q :| View(Step(s, c).store.files, q).Some? && w in View(Step(s, c).store.files, q).value.queue;
      WaitedBefore(s, c, q, w);
      WaitsForOneFile(s, p, q, w);
    }
  }

  lemma StaysInQueue(s: Store, c: Call, p: Path, w: Fd)
    requires Inv(s) && Admissible(s, c) && Waits(s.files, w)
    requires View(Step(s, c).store.files, p).Some? && w in View(Step(s, c).store.files, p).value.queue
    ensures Count(Step(s, c).granted, w) == 0 && Count(Step(s, c).gone, w) == 0
  {
    StepConserves(s, c, w);
    StepKeepsInv(s, c);
    WaitsInView(Step(s, c).store, w);
    WaitsOnce(s.files, w);
    WaitsOnce(Step(s, c).store.files, w);
  }

  /**
    Every blocked lock request is answered once: OK exactly when its client becomes the holder, FILE_NOT_FOUND
    exactly when the file is destroyed, and not at all while it goes on waiting.
  */
  lemma BlockedClientIsAnsweredOnce(s: Store, c: Call, p: Path, w: Fd)
    requires Inv(s) && Admissible(s, c) && View(s.files, p).Some? && w in View(s.files, p).value.queue
    ensures StillWaits(s, c, p, w) || HasTheLock(s, c, p, w) || FileIsGone(s, c, p, w)
  {
    var e, e' := View(s.files, p).value, View(Step(s, c).store.files, p);
    assert Waits(s.files, w);
    StepRefines(s, c, p);
    GoneAreTheirWaiters(s, c);
    if e'.Some? && w in e'.value.queue {
      StaysInQueue(s, c, p, w);
    } else {
      LeavesTheQueue(s, c, p, w);
      if p !in Paths(Step(s, c).destroyed) {
        NoRecreation(s, c, p);
        NotInQueue(s, p, c.fd);
        if !(c.req.ReqOpen? && c.req.create) {
          EffectOnQueue(e, p, c, Step(s, c).reply, Paths(Step(s, c).destroyed), w);
        }
      } else {
        CountIsPositive(Step(s, c).granted, w);
        PathsOfNone();
      }
    }
  }

  lemma PathsOfNone()
    ensures Paths([]) == {}
  {
  }

  /** Nobody is answered who was not waiting. */
  lemma OnlyBlockedClientsAreAnswered(s: Store, c: Call, w: Fd)
    requires Inv(s) && Admissible(s, c) && (w in Step(s, c).gone || w in Step(s, c).granted)
    ensures Waits(s.files, w)
  {
    hide Inv, Step;
    AnswersAreForOthers(s, c);
    StepConserves(s, c, w);
    CountIsPositive(Step(s, c).gone, w);
    CountIsPositive(Step(s, c).granted, w);
    WaitsOnceInStore(s, w);
  }

  lemma WaitsOnceInStore(s: Store, w: Fd)
    requires Inv(s)
    ensures Waiting(s.files, w) == One(Waits(s.files, w))
  {
    WaitsOnce(s.files, w);
  }

  /** A request that has to wait answers nobody. */
  lemma AnswersAreForOthers(s: Store, c: Call)
    ensures Step(s, c).reply.Waiting? ==> Step(s, c).gone == [] && Step(s, c).granted == []
  {
    hide IndexOf, Victim, EvictOne, EvictUntilFits, Replace, RemoveFirst, RunLength.Encode;
  }
}
