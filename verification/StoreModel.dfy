/**
  What each handler of src/filesystemApi.c does to the storage, as one atomic step on values. The heap
  storage of FilesystemApi.dfy is proved to take exactly these steps.
*/
module StoreModel {
  import opened Prelude
  import opened RunLength

  /** A path name: a C string without its NUL. The empty path names no file. */
  type Path = seq<Byte>

  /** A client's file descriptor; 0 stands for nobody. */
  type Fd = int

  datatype Algo = Fifo | Lru | Lfu

  datatype Error = EInval | ENoEnt | EAcces | EPerm | E2Big

  /**
    A file of the storage. `bytes` are the bytes clients see; in memory there is only their code, and
    `contentSize` is its length.
  */
  datatype File = File(
    path: Path,
    bytes: seq<Byte>,
    contentSize: int,
    uncompressedSize: int,
    lockedBy: Fd,
    pending: seq<Fd>,
    openFds: seq<Fd>,
    firstWriter: Fd,
    refCount: int,
    lastRef: int,
    insertionTime: int)
  {
    function Touch(now: int): File {
      this.(lastRef := now, refCount := refCount + 1)
    }

    /** Whether `fd` may read or write: nobody else holds the lock, and `fd` has the file open. */
    predicate Accessible(fd: Fd) {
      (lockedBy == 0 || lockedBy == fd) && fd in openFds
    }
  }

  datatype Store = Store(
    files: seq<File>,
    maxFileNum: nat,
    maxStorageSize: nat,
    algo: Algo,
    currFileNum: int,
    currStorageSize: int,
    maxReachedFileNum: int,
    maxReachedStorageSize: int,
    numVictims: int)

  datatype Reply =
    | Failed(error: Error)
    | Done
    | Content(bytes: seq<Byte>)
    | Listing(files: seq<(Path, seq<Byte>)>)
    | Waiting
    | Answer(yes: bool)

  /**
    What a handler returns besides the new store: `gone` are the clients to be told that the file they were
    waiting for no longer exists, `granted` those that have just become lock holders, `destroyed` the files
    taken out of the store, oldest victim first.
  */
  datatype Result = Result(store: Store, reply: Reply, gone: seq<Fd>, granted: seq<Fd>, destroyed: seq<File>)

  function Fail(s: Store, e: Error): Result {
    Result(s, Failed(e), [], [], [])
  }

  function Quiet(s: Store, reply: Reply): Result {
    Result(s, reply, [], [], [])
  }

  function InitialStore(maxFileNum: nat, maxStorageSize: nat, algo: Algo): Store {
    Store([], maxFileNum, maxStorageSize, algo, 0, 0, 0, 0, 0)
  }

  // ---------------------------------------------------------------- looking up and editing the list

  function IndexFrom(files: seq<File>, path: Path, k: nat): (i: nat)
    requires k <= |files|
    ensures k <= i <= |files| && (i < |files| ==> files[i].path == path)
    ensures forall j {:trigger files[j].path} :: k <= j < i ==> files[j].path != path
    decreases |files| - k
  {
    if k == |files| || files[k].path == path then k else IndexFrom(files, path, k + 1)
  }

  /** Position of the file called `path`, or the length of the list. */
  function IndexOf(files: seq<File>, path: Path): (i: nat)
    ensures i <= |files| && (i < |files| ==> files[i].path == path)
    ensures forall j {:trigger files[j].path} :: 0 <= j < i ==> files[j].path != path
  {
    IndexFrom(files, path, 0)
  }

  predicate Has(files: seq<File>, path: Path) {
    IndexOf(files, path) < |files|
  }

  function RemoveAt<T>(xs: seq<T>, i: nat): (r: seq<T>)
    requires i < |xs|
    ensures |r| == |xs| - 1
  {
    xs[..i] + xs[i + 1..]
  }

  /** `popNodeFromFdQueue` for a given descriptor: only its first occurrence goes. */
  function RemoveFirst(fds: seq<Fd>, fd: Fd): seq<Fd> {
    if fds == [] then [] else if fds[0] == fd then fds[1..] else [fds[0]] + RemoveFirst(fds[1..], fd)
  }

  function Max(a: int, b: int): int {
    if a > b then a else b
  }

  // ---------------------------------------------------------------- eviction

  /** What the replacement algorithm minimises. First-in-first-out minimises nothing but list position. */
  function Rank(algo: Algo, f: File): int {
    match algo
    case Fifo => 0
    case Lru => f.lastRef
    case Lfu => f.refCount
  }

  /** `files[a]` goes before `files[b]`: ranked lower, or equally ranked and earlier in the list. */
  predicate Before(files: seq<File>, algo: Algo, a: nat, b: nat)
    requires a < |files| && b < |files|
  {
    Rank(algo, files[a]) < Rank(algo, files[b]) || (Rank(algo, files[a]) == Rank(algo, files[b]) && a < b)
  }

  /** Among the first `n` files, `v` is the one to evict: it is not `spare`, and goes before every other that is not. */
  predicate BestOf(files: seq<File>, algo: Algo, spare: Path, n: nat, v: nat)
    requires n <= |files|
  {
    && v < n && files[v].path != spare
    && forall j {:trigger files[j].path} :: 0 <= j < n && j != v && files[j].path != spare ==> Before(files, algo, v, j)
  }

  predicate OnlySpare(files: seq<File>, spare: Path, n: nat)
    requires n <= |files|
  {
    forall j {:trigger files[j].path} :: 0 <= j < n ==> files[j].path == spare
  }

  lemma {:induction false} BestExists(files: seq<File>, algo: Algo, spare: Path, n: nat)
    requires n <= |files| && !OnlySpare(files, spare, n)
    ensures exists v :: BestOf(files, algo, spare, n, v)
  {
    if OnlySpare(files, spare, n - 1) {
      assert BestOf(files, algo, spare, n, n - 1);
    } else {
      BestExists(files, algo, spare, n - 1);
      var v :| BestOf(files, algo, spare, n - 1, v);
      var better := files[n - 1].path != spare && Before(files, algo, n - 1, v);
      assert BestOf(files, algo, spare, n, if better then n - 1 else v);
    }
  }

  /** Position of the file to evict next, or the length of the list when only `spare` is left. */
  ghost function Victim(files: seq<File>, algo: Algo, spare: Path): (v: nat)
    ensures v <= |files|
    ensures if v < |files| then BestOf(files, algo, spare, |files|, v) else OnlySpare(files, spare, |files|)
  {
    if OnlySpare(files, spare, |files|) then |files|
    else
      BestExists(files, algo, spare, |files|);
      var v :| BestOf(files, algo, spare, |files|, v);
      v
  }

  lemma VictimIsUnique(files: seq<File>, algo: Algo, spare: Path, v: nat)
    requires BestOf(files, algo, spare, |files|, v)
    ensures Victim(files, algo, spare) == v
  {
    var w := Victim(files, algo, spare);
    assert files[v].path != spare && (w < |files| ==> files[w].path != spare);
  }

  /** The `destroyFile` of the file at `i`: unlinked, and taken off both counters. */
  function Destroy(s: Store, i: nat): Store
    requires i < |s.files|
  {
    s.(files := RemoveAt(s.files, i), currFileNum := s.currFileNum - 1,
      currStorageSize := s.currStorageSize - s.files[i].contentSize)
  }

  /** `getVictim` followed by `destroyFile`. */
  ghost function EvictOne(s: Store, spare: Path): Store
    requires Victim(s.files, s.algo, spare) < |s.files|
  {
    Destroy(s, Victim(s.files, s.algo, spare)).(numVictims := s.numVictims + 1)
  }

  /** The eviction loop of a write that adds `growth` bytes; returns the store and the victims in order. */
  ghost function EvictUntilFits(s: Store, spare: Path, growth: int): (Store, seq<File>)
    decreases |s.files|
  {
    var v := Victim(s.files, s.algo, spare);
    if s.currStorageSize + growth <= s.maxStorageSize || v == |s.files| then (s, [])
    else
      var (rest, victims) := EvictUntilFits(EvictOne(s, spare), spare, growth);
      (rest, [s.files[v]] + victims)
  }

  function ResetRefCounts(files: seq<File>): (r: seq<File>)
    ensures |r| == |files| && forall i :: 0 <= i < |r| ==> r[i] == files[i].(refCount := 0)
  {
    seq(|files|, i requires 0 <= i < |files| => files[i].(refCount := 0))
  }

  /** The clients waiting for any of these files, queue after queue. */
  function Waiters(files: seq<File>): seq<Fd> {
    if files == [] then [] else files[0].pending + Waiters(files[1..])
  }

  // ---------------------------------------------------------------- the handlers

  function NewFile(path: Path, lock: bool, fd: Fd, now: int): File {
    File(path, [], 0, 0, if lock then fd else 0, [], [fd], if lock then fd else 0, 0, 0, now)
  }

  /** `addFileToStore` */
  function AddFile(s: Store, f: File): Store {
    var n, size := s.currFileNum + 1, s.currStorageSize + f.contentSize;
    s.(files := s.files + [f], currFileNum := n, currStorageSize := size,
       maxReachedFileNum := Max(s.maxReachedFileNum, n), maxReachedStorageSize := Max(s.maxReachedStorageSize, size))
  }

  /** Creation of a file that does not exist yet, with the eviction it may take. */
  ghost function Create(s: Store, path: Path, lock: bool, fd: Fd, now: int): Result {
    var v := Victim(s.files, s.algo, []);
    if s.currFileNum == s.maxFileNum && v < |s.files| then
      var s' := EvictOne(s, []);
      var s'' := s'.(files := ResetRefCounts(s'.files));
      Result(AddFile(s'', NewFile(path, lock, fd, now)), Done, s.files[v].pending, [], [s.files[v]])
    else
      Quiet(AddFile(s, NewFile(path, lock, fd, now)), Done)
  }

  /** `openFileHandler` */
  ghost function Open(s: Store, path: Path, create: bool, lock: bool, fd: Fd, now: int): Result {
    var i := IndexOf(s.files, path);
    if path == [] || fd <= 0 then Fail(s, EInval)
    else if (i < |s.files|) == create then Fail(s, if create then EPerm else ENoEnt)
    else if create then Create(s, path, lock, fd, now)
    else
      var f := s.files[i];
      if lock && f.lockedBy != 0 then Fail(s, EAcces)
      else
        var holder := if lock then fd else f.lockedBy;
        Quiet(s.(files := s.files[i := f.(lockedBy := holder, openFds := f.openFds + [fd])]), Done)
  }

  /** `readFileHandler` */
  function Read(s: Store, path: Path, fd: Fd, now: int): Result {
    var i := IndexOf(s.files, path);
    if path == [] || fd <= 0 then Fail(s, EInval)
    else if i == |s.files| then Fail(s, ENoEnt)
    else if !s.files[i].Accessible(fd) then Fail(s, EAcces)
    else Quiet(s.(files := s.files[i := s.files[i].Touch(now).(firstWriter := 0)]), Content(s.files[i].bytes))
  }

  function Contents(files: seq<File>): (r: seq<(Path, seq<Byte>)>)
    ensures |r| == |files| && forall i :: 0 <= i < |r| ==> r[i] == (files[i].path, files[i].bytes)
  {
    seq(|files|, i requires 0 <= i < |files| => (files[i].path, files[i].bytes))
  }

  /** How many files `readNFilesHandler` takes: all of them unless a positive limit is smaller. */
  function ReadCount(limit: int, total: nat): (n: nat)
    ensures n <= total && (limit <= 0 ==> n == total)
    ensures limit > 0 ==> n <= limit && (n == limit || n == total)
  {
    if 0 < limit < total then limit else total
  }

  /** `readNFilesHandler` */
  function ReadN(s: Store, limit: int): Result {
    Quiet(s, Listing(Contents(s.files[..ReadCount(limit, |s.files|)])))
  }

  /** `writeToFileHandler` */
  ghost function Write(s: Store, path: Path, data: seq<Byte>, fd: Fd, now: int): Result {
    var i := IndexOf(s.files, path);
    if path == [] || fd <= 0 then Fail(s, EInval)
    else if i == |s.files| then Fail(s, ENoEnt)
    else if !s.files[i].Accessible(fd) then Fail(s, EAcces)
    else
      var f := s.files[i].Touch(now);
      var touched := s.(files := s.files[i := f]);
      var size := |Encode(f.bytes + data)|;
      if size > s.maxStorageSize then Fail(touched, E2Big)
      else WriteFitting(touched, path, f, data, size)
  }

  /** The part of a write that cannot fail: evict, then replace the content of `f`. */
  ghost function WriteFitting(s: Store, path: Path, f: File, data: seq<Byte>, size: nat): Result {
    var (rest, victims) := EvictUntilFits(s, path, size - f.contentSize);
    Result(Replace(rest, path, f, data, size), Done, Waiters(victims), [], victims)
  }

  /** A file after `data` has been appended, with a code of `size` bytes. */
  function Rewritten(f: File, data: seq<Byte>, size: nat): File {
    f.(bytes := f.bytes + data, contentSize := size, uncompressedSize := f.uncompressedSize + |data|,
       firstWriter := 0, refCount := 0)
  }

  /** The end of a write: reference counts are reset, sizes accounted for, the content of `f` replaced. */
  function Replace(s: Store, path: Path, f: File, data: seq<Byte>, size: nat): Store {
    var files, total := ResetRefCounts(s.files), s.currStorageSize - f.contentSize + size;
    var j := IndexOf(files, path);
    s.(files := if j < |files| then files[j := Rewritten(f, data, size)] else files, currStorageSize := total,
       maxReachedStorageSize := Max(s.maxReachedStorageSize, total))
  }

  /** `lockFileHandler` */
  function Lock(s: Store, path: Path, fd: Fd, now: int): Result {
    var i := IndexOf(s.files, path);
    if path == [] then Fail(s, EInval)
    else if i == |s.files| then Fail(s, ENoEnt)
    else
      var f := s.files[i];
      if f.lockedBy != 0 && f.lockedBy != fd then
        Quiet(s.(files := s.files[i := f.(pending := f.pending + [fd])]), Waiting)
      else
        Quiet(s.(files := s.files[i := f.Touch(now).(lockedBy := fd, firstWriter := 0)]), Done)
  }

  /** Hands the lock over to the first client in line, or to nobody. */
  function HandOver(f: File): File {
    if f.pending == [] then f.(lockedBy := 0) else f.(lockedBy := f.pending[0], pending := f.pending[1..])
  }

  /** `unlockFileHandler` */
  function Unlock(s: Store, path: Path, fd: Fd, now: int): Result {
    var i := IndexOf(s.files, path);
    if path == [] || fd <= 0 then Fail(s, EInval)
    else if i == |s.files| then Fail(s, ENoEnt)
    else
      var f := s.files[i].Touch(now);
      if f.lockedBy != fd then Fail(s.(files := s.files[i := f]), EAcces)
      else
        var granted := f.pending[..if f.pending == [] then 0 else 1];
        Result(s.(files := s.files[i := HandOver(f).(firstWriter := 0)]), Done, [], granted, [])
  }

  /** `closeFileHandler` */
  function Close(s: Store, path: Path, fd: Fd, now: int): Result {
    var i := IndexOf(s.files, path);
    if path == [] || fd <= 0 then Fail(s, EInval)
    else if i == |s.files| then Fail(s, ENoEnt)
    else
      var f := s.files[i];
      Quiet(s.(files := s.files[i := f.Touch(now).(openFds := RemoveFirst(f.openFds, fd), firstWriter := 0)]), Done)
  }

  /** `removeFileHandler` */
  function Remove(s: Store, path: Path, fd: Fd): Result {
    var i := IndexOf(s.files, path);
    if path == [] || fd <= 0 then Fail(s, EInval)
    else if i == |s.files| then Fail(s, ENoEnt)
    else if s.files[i].lockedBy != fd then Fail(s, EAcces)
    else Result(Destroy(s, i), Done, s.files[i].pending, [], [s.files[i]])
  }

  /** What a client's departure does to one file. */
  function Leave(f: File, fd: Fd): File {
    var g := if f.lockedBy == fd then HandOver(f) else f;
    g.(pending := RemoveFirst(g.pending, fd), openFds := RemoveFirst(f.openFds, fd))
  }

  function LeaveAll(files: seq<File>, fd: Fd): (r: seq<File>)
    ensures |r| == |files| && forall i :: 0 <= i < |r| ==> r[i] == Leave(files[i], fd)
  {
    seq(|files|, i requires 0 <= i < |files| => Leave(files[i], fd))
  }

  /** The first in line for each file that the departing client had locked, in list order. */
  function Heirs(files: seq<File>, fd: Fd): seq<Fd> {
    if files == [] then []
    else
      (if files[0].lockedBy == fd && files[0].pending != [] then [files[0].pending[0]] else [])
      + Heirs(files[1..], fd)
  }

  /** `clientExitHandler` */
  function Exit(s: Store, fd: Fd): Result {
    if fd <= 0 then Fail(s, EInval)
    else Result(s.(files := LeaveAll(s.files, fd)), Done, [], Heirs(s.files, fd), [])
  }

  /** `testFirstWrite` */
  function TestFirstWrite(s: Store, path: Path, fd: Fd): Result {
    var i := IndexOf(s.files, path);
    Quiet(s, Answer(path != [] && fd > 0 && i < |s.files| && s.files[i].firstWriter == fd))
  }

  // ---------------------------------------------------------------- requests and runs

  datatype Request =
    | ReqOpen(path: Path, create: bool, lock: bool)
    | ReqRead(path: Path)
    | ReqReadN(limit: int)
    | ReqTest(path: Path)
    | ReqWrite(path: Path, data: seq<Byte>)
    | ReqLock(path: Path)
    | ReqUnlock(path: Path)
    | ReqClose(path: Path)
    | ReqRemove(path: Path)
    | ReqExit

  /** One handler call: the request, the client it comes from and the clock. */
  datatype Call = Call(req: Request, fd: Fd, now: int)

  ghost function Step(s: Store, c: Call): Result {
    match c.req
    case ReqOpen(path, create, lock) => Open(s, path, create, lock, c.fd, c.now)
    case ReqRead(path) => Read(s, path, c.fd, c.now)
    case ReqReadN(limit) => ReadN(s, limit)
    case ReqTest(path) => TestFirstWrite(s, path, c.fd)
    case ReqWrite(path, data) => Write(s, path, data, c.fd, c.now)
    case ReqLock(path) => Lock(s, path, c.fd, c.now)
    case ReqUnlock(path) => Unlock(s, path, c.fd, c.now)
    case ReqClose(path) => Close(s, path, c.fd, c.now)
    case ReqRemove(path) => Remove(s, path, c.fd)
    case ReqExit => Exit(s, c.fd)
  }

  /** The store after a sequence of handler calls. */
  ghost function After(s: Store, calls: seq<Call>): Store {
    if calls == [] then s else Step(After(s, calls[..|calls| - 1]), calls[|calls| - 1]).store
  }
}
