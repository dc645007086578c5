/** Every handler keeps the storage invariant; what each write, lock and departure means for clients. */
module HandlerLaws {
  import opened Prelude
  import opened RunLength
  import opened StoreModel
  import opened StoreInvariant
  import opened Eviction

  // ---------------------------------------------------------------- fd queues

  lemma NoDupCons<T>(x: T, xs: seq<T>)
    ensures NoDup([x] + xs) <==> x !in xs && NoDup(xs)
  {
    var all := [x] + xs;
    if NoDup(all) {
      forall i | 0 <= i < |xs| ensures xs[i] != x {
        assert all[0] != all[i + 1];
      }
      forall i, j | 0 <= i < j < |xs| ensures xs[i] != xs[j] {
        assert all[i + 1] != all[j + 1];
      }
    }
  }

  lemma {:induction false} RemoveFirstLaw(fds: seq<Fd>, fd: Fd)
    requires NoDup(fds)
    ensures var r := RemoveFirst(fds, fd);
      NoDup(r) && forall x :: x in r <==> x in fds && x != fd
  {
    if fds != [] {
      var head, rest := fds[0], fds[1..];
      assert fds == [head] + rest;
      NoDupCons(head, rest);
      if head != fd {
        RemoveFirstLaw(rest, fd);
        NoDupCons(head, RemoveFirst(rest, fd));
      }
    }
  }

  lemma HandOverKeeps(f: File)
    requires QueueOk(f)
    ensures QueueOk(HandOver(f)) && HandOver(f).lockedBy == if f.pending == [] then 0 else f.pending[0]
    ensures forall fd :: fd in HandOver(f).pending <==> fd in f.pending && fd != HandOver(f).lockedBy
    ensures f.lockedBy > 0 ==> HandOver(f).lockedBy != f.lockedBy
  {
    if f.pending != [] {
      var head, rest := f.pending[0], f.pending[1..];
      assert f.pending == [head] + rest && head in f.pending;
      assert forall fd :: fd in rest ==> fd in f.pending;
      NoDupCons(head, rest);
    }
  }

  /** A departing client neither holds the file nor waits for it; the others wait as before. */
  lemma LeaveLaw(f: File, fd: Fd)
    requires QueueOk(f) && fd > 0
    ensures var g := Leave(f, fd);
      && QueueOk(g) && g.lockedBy != fd
      && (forall x :: x in g.pending <==> x in f.pending && x != fd && x != g.lockedBy)
      && (f.lockedBy != fd ==> g.lockedBy == f.lockedBy)
  {
    HandOverKeeps(f);
    RemoveFirstLaw(HandOver(f).pending, fd);
    RemoveFirstLaw(f.pending, fd);
  }

  // ---------------------------------------------------------------- each handler keeps the invariant

  ghost predicate CanLock(s: Store, fd: Fd) {
    fd > 0 && !Waits(s.files, fd)
  }

  lemma EditKeeps(s: Store, i: nat, f: File)
    requires Inv(s) && i < |s.files| && FileOk(f)
    requires f.path == s.files[i].path && f.contentSize == s.files[i].contentSize
    requires forall fd :: fd in f.pending ==> fd in s.files[i].pending || !Waits(s.files, fd)
    ensures Inv(s.(files := s.files[i := f]))
  {
    UpdateKeeps(s.files, i, f);
    TotalOfUpdate(s.files, i, f);
  }

  /** Adding a new file to a store that has room for it. */
  lemma AddKeeps(s: Store, f: File)
    requires Inv(s) && s.currFileNum < s.maxFileNum
    requires FileOk(f) && f.pending == [] && f.contentSize == 0 && !Has(s.files, f.path)
    ensures Inv(AddFile(s, f))
  {
    AppendKeeps(s.files, f);
    TotalOfAppend(s.files, [f]);
  }

  /** Making room for a new file by evicting one. */
  lemma EvictionForNewKeeps(s: Store, path: Path)
    requires Inv(s) && !Has(s.files, path) && Victim(s.files, s.algo, []) < |s.files|
    ensures var s' := EvictOne(s, []);
      && Inv(s'.(files := ResetRefCounts(s'.files))) && !Has(ResetRefCounts(s'.files), path)
      && s'.currFileNum == s.currFileNum - 1 && s'.maxFileNum == s.maxFileNum
  {
    hide FilesOk, Victim, IndexOf;
    var v, s' := Victim(s.files, s.algo, []), EvictOne(s, []);
    assert v < |s.files|;
    EvictOneKeeps(s, []);
    NoUnderflow(s, v);
    BookkeepingKeeps(s'.files, ResetRefCounts(s'.files));
    AbsentAfterRemoval(s.files, v, path);
  }

  lemma NewFileIsOk(path: Path, lock: bool, fd: Fd, now: int)
    requires path != [] && fd > 0
    ensures FileOk(NewFile(path, lock, fd, now))
  {
  }

  /** Any file can be evicted for a new one: none has the empty path. */
  lemma VictimForNew(s: Store)
    requires Inv(s) && s.files != []
    ensures Victim(s.files, s.algo, []) < |s.files|
  {
    assert FileOk(s.files[0]);
  }

  lemma CreateKeeps(s: Store, path: Path, lock: bool, fd: Fd, now: int)
    requires Inv(s) && path != [] && fd > 0 && !Has(s.files, path)
    ensures Inv(Create(s, path, lock, fd, now).store)
  {
    hide FilesOk, Victim, IndexOf, FileOk;
    var f := NewFile(path, lock, fd, now);
    NewFileIsOk(path, lock, fd, now);
    if s.files != [] {
      VictimForNew(s);
    }
    if s.currFileNum == s.maxFileNum && Victim(s.files, s.algo, []) < |s.files| {
      var s' := EvictOne(s, []);
      EvictionForNewKeeps(s, path);
      AddKeeps(s'.(files := ResetRefCounts(s'.files)), f);
    } else {
      AddKeeps(s, f);
    }
  }

  lemma AbsentAfterRemoval(files: seq<File>, v: nat, path: Path)
    requires v < |files| && !Has(files, path)
    ensures !Has(ResetRefCounts(RemoveAt(files, v)), path)
  {
    var after := RemoveAt(files, v);
    assert forall k :: 0 <= k < |after| ==> after[k] == files[if k < v then k else k + 1];
  }

  lemma OpenKeeps(s: Store, path: Path, create: bool, lock: bool, fd: Fd, now: int)
    requires Inv(s)
    ensures Inv(Open(s, path, create, lock, fd, now).store)
  {
    var i := IndexOf(s.files, path);
    if !(path == [] || fd <= 0 || (i < |s.files|) == create) {
      if create {
        CreateKeeps(s, path, lock, fd, now);
      } else {
        assert FileOk(s.files[i]);
        if !(lock && s.files[i].lockedBy != 0) {
          var holder := if lock then fd else s.files[i].lockedBy;
          EditKeeps(s, i, s.files[i].(lockedBy := holder, openFds := s.files[i].openFds + [fd]));
        }
      }
    }
  }

  lemma ReadKeeps(s: Store, path: Path, fd: Fd, now: int)
    requires Inv(s)
    ensures Inv(Read(s, path, fd, now).store)
  {
    var i := IndexOf(s.files, path);
    if i < |s.files| {
      assert FileOk(s.files[i]);
      EditKeeps(s, i, s.files[i].Touch(now).(firstWriter := 0));
    }
  }

  lemma LockKeeps(s: Store, path: Path, fd: Fd, now: int)
    requires Inv(s) && CanLock(s, fd)
    ensures Inv(Lock(s, path, fd, now).store)
  {
    var i := IndexOf(s.files, path);
    if path != [] && i < |s.files| {
      var f := s.files[i];
      assert FileOk(f) && fd !in f.pending;
      if f.lockedBy != 0 && f.lockedBy != fd {
        EditKeeps(s, i, f.(pending := f.pending + [fd]));
      } else {
        EditKeeps(s, i, f.Touch(now).(lockedBy := fd, firstWriter := 0));
      }
    }
  }

  lemma UnlockKeeps(s: Store, path: Path, fd: Fd, now: int)
    requires Inv(s)
    ensures Inv(Unlock(s, path, fd, now).store)
  {
    var i := IndexOf(s.files, path);
    if i < |s.files| {
      var f := s.files[i].Touch(now);
      assert FileOk(s.files[i]);
      HandOverKeeps(f);
      EditKeeps(s, i, f);
      EditKeeps(s, i, HandOver(f).(firstWriter := 0));
    }
  }

  lemma CloseKeeps(s: Store, path: Path, fd: Fd, now: int)
    requires Inv(s)
    ensures Inv(Close(s, path, fd, now).store)
  {
    var i := IndexOf(s.files, path);
    if i < |s.files| {
      var f := s.files[i];
      assert FileOk(f);
      EditKeeps(s, i, f.Touch(now).(openFds := RemoveFirst(f.openFds, fd), firstWriter := 0));
    }
  }

  lemma RemoveStepKeeps(s: Store, path: Path, fd: Fd)
    requires Inv(s)
    ensures Inv(Remove(s, path, fd).store)
  {
    var i := IndexOf(s.files, path);
    if i < |s.files| {
      RemoveKeeps(s.files, i);
      TotalOfRemoval(s.files, i);
      NoUnderflow(s, i);
    }
  }

  lemma LeaveAllLaw(files: seq<File>, fd: Fd, i: nat)
    requires FilesOk(files) && fd > 0 && i < |files|
    ensures var g := LeaveAll(files, fd)[i];
      && FileOk(g) && g.lockedBy != fd && fd !in g.pending
      && g.path == files[i].path && g.contentSize == files[i].contentSize
      && (forall x :: x in g.pending ==> x in files[i].pending)
  {
    assert FileOk(files[i]);
    LeaveLaw(files[i], fd);
  }

  /** After a client exits it holds no lock and waits for no file. */
  lemma ExitKeeps(s: Store, fd: Fd)
    requires Inv(s) && fd > 0
    ensures Inv(Exit(s, fd).store)
    ensures forall i :: 0 <= i < |s.files| ==>
      Exit(s, fd).store.files[i].lockedBy != fd && fd !in Exit(s, fd).store.files[i].pending
  {
    var after := LeaveAll(s.files, fd);
    forall i | 0 <= i < |after|
      ensures FileOk(after[i]) && after[i].lockedBy != fd && fd !in after[i].pending
      ensures after[i].path == s.files[i].path && after[i].contentSize == s.files[i].contentSize
      ensures forall x :: x in after[i].pending ==> x in s.files[i].pending
    {
      LeaveAllLaw(s.files, fd, i);
    }
    TotalOfSameSizes(s.files, after);
  }

  // ---------------------------------------------------------------- writing

  /** `size` is the length of the code that a write of `data` makes of `f`. */
  ghost predicate SizeAfter(f: File, data: seq<Byte>, size: nat) {
    size == |Encode(f.bytes + data)|
  }

  lemma RewrittenIsOk(f: File, data: seq<Byte>, size: nat)
    requires FileOk(f) && SizeAfter(f, data, size)
    ensures FileOk(Rewritten(f, data, size))
  {
  }

  /** Replacing the content of `f` in a store that has room for it. */
  lemma ReplaceKeeps(rest: Store, f: File, data: seq<Byte>, size: nat)
    requires Loose(rest) && f in rest.files && rest.currFileNum <= rest.maxFileNum && 0 < rest.maxFileNum
    requires SizeAfter(f, data, size) && rest.currStorageSize - f.contentSize + size <= rest.maxStorageSize
    ensures Inv(Replace(rest, f.path, f, data, size))
    ensures var files := ResetRefCounts(rest.files);
      var j := IndexOf(files, f.path);
      && j < |files| && rest.files[j] == f
      && Replace(rest, f.path, f, data, size).files == files[j := Rewritten(f, data, size)]
  {
    var k :| 0 <= k < |rest.files| && rest.files[k] == f;
    var files, f' := ResetRefCounts(rest.files), Rewritten(f, data, size);
    BookkeepingKeeps(rest.files, files);
    IndexIsUnique(rest.files, k);
    IndexIsUnique(files, k);
    assert FileOk(rest.files[k]);
    RewrittenIsOk(f, data, size);
    UpdateKeeps(files, k, f');
    TotalOfUpdate(files, k, f');
  }

  /** The store after the eviction loop of a write that gives the file at `i` a code of `size` bytes. */
  ghost function AfterEviction(s: Store, i: nat, size: nat): Store
    requires i < |s.files|
  {
    EvictUntilFits(s, s.files[i].path, size - s.files[i].contentSize).0
  }

  /** The eviction loop of a write leaves a consistent store with the file in it and room for its new code. */
  lemma RoomForWrite(s: Store, i: nat, size: nat)
    requires Inv(s) && i < |s.files| && size <= s.maxStorageSize
    ensures Loose(AfterEviction(s, i, size)) && s.files[i] in AfterEviction(s, i, size).files
    ensures AfterEviction(s, i, size).currFileNum <= AfterEviction(s, i, size).maxFileNum == s.maxFileNum
    ensures AfterEviction(s, i, size).currStorageSize - s.files[i].contentSize + size
      <= AfterEviction(s, i, size).maxStorageSize
  {
    var f := s.files[i];
    var growth := size - f.contentSize;
    LoopMakesRoom(s, f.path, i, growth);
    LoopSplits(s, f.path, growth);
    LoopCounts(s, f.path, growth);
    var (rest, victims) := EvictUntilFits(s, f.path, growth);
    SparedSurvives(s.files, f, rest.files, victims);
  }

  lemma WriteFittingKeeps(s: Store, i: nat, data: seq<Byte>, size: nat)
    requires Inv(s) && i < |s.files| && SizeAfter(s.files[i], data, size) && size <= s.maxStorageSize
    ensures Inv(WriteFitting(s, s.files[i].path, s.files[i], data, size).store)
  {
    RoomForWrite(s, i, size);
    ReplaceKeeps(AfterEviction(s, i, size), s.files[i], data, size);
    assert WriteFitting(s, s.files[i].path, s.files[i], data, size).store
      == Replace(AfterEviction(s, i, size), s.files[i].path, s.files[i], data, size);
  }

  lemma SparedSurvives(before: seq<File>, f: File, after: seq<File>, victims: seq<File>)
    requires f in before && Splits(before, f.path, after, victims)
    ensures f in after
  {
  }

  lemma WriteKeeps(s: Store, path: Path, data: seq<Byte>, fd: Fd, now: int)
    requires Inv(s)
    ensures Inv(Write(s, path, data, fd, now).store)
  {
    var i := IndexOf(s.files, path);
    if i < |s.files| {
      var f := s.files[i].Touch(now);
      assert FileOk(s.files[i]);
      EditKeeps(s, i, f);
      var size := |Encode(f.bytes + data)|;
      if size <= s.maxStorageSize {
        WriteFittingKeeps(s.(files := s.files[i := f]), i, data, size);
      }
    }
  }

  // ---------------------------------------------------------------- all of them, over every run

  /** What the server guarantees about the client a request comes from: it is real, and it is not waiting. */
  ghost predicate Admissible(s: Store, c: Call) {
    c.fd > 0 && !Waits(s.files, c.fd)
  }

  lemma QueueStepKeepsInv(s: Store, c: Call)
    requires Inv(s) && Admissible(s, c)
    requires c.req.ReqLock? || c.req.ReqUnlock? || c.req.ReqClose? || c.req.ReqRemove?
    ensures Inv(Step(s, c).store)
  {
    hide Inv, Lock, Unlock, Close, Remove;
    match c.req {
      case ReqLock(path) => LockKeeps(s, path, c.fd, c.now);
      case ReqUnlock(path) => UnlockKeeps(s, path, c.fd, c.now);
      case ReqClose(path) => CloseKeeps(s, path, c.fd, c.now);
      case ReqRemove(path) => RemoveStepKeeps(s, path, c.fd);
    }
  }

  lemma ContentStepKeepsInv(s: Store, c: Call)
    requires Inv(s) && Admissible(s, c)
    requires c.req.ReqOpen? || c.req.ReqRead? || c.req.ReqReadN? || c.req.ReqTest? || c.req.ReqWrite?
    ensures Inv(Step(s, c).store)
  {
    hide FilesOk, Open, Read, Write;
    match c.req {
      case ReqOpen(path, create, lock) => OpenKeeps(s, path, create, lock, c.fd, c.now);
      case ReqRead(path) => ReadKeeps(s, path, c.fd, c.now);
      case ReqReadN(limit) =>
      case ReqTest(path) =>
      case ReqWrite(path, data) => WriteKeeps(s, path, data, c.fd, c.now);
    }
  }

  lemma StepKeepsInv(s: Store, c: Call)
    requires Inv(s) && Admissible(s, c)
    ensures Inv(Step(s, c).store)
  {
    if c.req.ReqExit? {
      ExitKeeps(s, c.fd);
    } else if c.req.ReqLock? || c.req.ReqUnlock? || c.req.ReqClose? || c.req.ReqRemove? {
      QueueStepKeepsInv(s, c);
    } else {
      ContentStepKeepsInv(s, c);
    }
  }

  /** A run in which no request comes from a waiting client. */
  ghost predicate Proper(s: Store, calls: seq<Call>) {
    forall k :: 0 <= k < |calls| ==> Admissible(After(s, calls[..k]), calls[k])
  }

  lemma ProperPrefix(s: Store, calls: seq<Call>, k: nat)
    requires Proper(s, calls) && k <= |calls|
    ensures Proper(s, calls[..k])
  {
    forall j | 0 <= j < k ensures Admissible(After(s, calls[..k][..j]), calls[..k][j]) {
      assert calls[..k][..j] == calls[..j];
    }
  }

  lemma InitialInv(maxFileNum: nat, maxStorageSize: nat, algo: Algo)
    requires maxFileNum > 0
    ensures Inv(InitialStore(maxFileNum, maxStorageSize, algo))
  {
  }

  /** The invariant holds in every reachable store. */
  lemma {:induction false} RunKeepsInv(s: Store, calls: seq<Call>)
    requires Inv(s) && Proper(s, calls)
    ensures Inv(After(s, calls))
    decreases |calls|
  {
    if calls != [] {
      var n := |calls| - 1;
      ProperPrefix(s, calls, n);
      RunKeepsInv(s, calls[..n]);
      StepKeepsInv(After(s, calls[..n]), calls[n]);
    }
  }
}
