/**
  The storage of src/filesystemApi.c in memory: a doubly linked list of files, a hash table over the same
  files and running counters, updated in place. Each handler runs as one step, and is proved to do to the
  files what the handler of the same name does in StoreModel.dfy.
*/
module FilesystemApi {
  import opened Prelude
  import RunLength
  import IclHash
  import Wire
  import opened StoreModel
  import opened StoreInvariant
  import opened Eviction
  import opened HandlerLaws

  const INITIALBUFSIZ: nat := 1024

  // ---------------------------------------------------------------- files

  /** `content` starts with the code of `bytes`, with room after it for the decoder to look one byte ahead. */
  ghost predicate HoldsCode(content: seq<Byte>, size: nat, bytes: seq<Byte>) {
    size <= |content| && (size > 0 ==> size < |content|) && content[..size] == RunLength.Encode(bytes)
  }

  /** A file after a client has asked for its lock. */
  function Taken(f: File, fd: Fd, now: int): (g: File)
    ensures g.path == f.path
  {
    if f.lockedBy == 0 || f.lockedBy == fd then f.Touch(now).(lockedBy := fd, firstWriter := 0)
    else f.(pending := f.pending + [fd])
  }

  /** A file after a client has tried to give its lock back. */
  function Unlocked(f: File, fd: Fd, now: int): (g: File)
    ensures g.path == f.path
  {
    if f.lockedBy == fd then HandOver(f.Touch(now)).(firstWriter := 0) else f.Touch(now)
  }

  /** A file after a client has closed it. */
  function Closed(f: File, fd: Fd, now: int): (g: File)
    ensures g.path == f.path
  {
    f.Touch(now).(openFds := RemoveFirst(f.openFds, fd), firstWriter := 0)
  }

  /** A file after a client has opened it, with or without its lock. */
  function Opened(f: File, lock: bool, fd: Fd): (g: File)
    ensures g.path == f.path && (lock && f.lockedBy != 0 ==> g == f)
  {
    if lock && f.lockedBy != 0 then f else f.(lockedBy := if lock then fd else f.lockedBy, openFds := f.openFds + [fd])
  }

  class FileNode {
    const pathname: Path
    /** The bytes of the allocated buffer, which is never written to again once it is filled. */
    var content: seq<Byte>
    var contentSize: nat
    var uncompressedSize: nat
    var lockedBy: Fd
    var pendingLocks: seq<Fd>
    var openDescriptors: seq<Fd>
    var canDoFirstWrite: Fd
    var refCount: int
    var lastRef: int
    var insertionTime: int
    var prevPtr: FileNode?
    var nextPtr: FileNode?

    ghost predicate HasContentOf(f: File)
      reads this`content, this`contentSize, this`uncompressedSize
    {
      && pathname == f.path && contentSize == f.contentSize && uncompressedSize == f.uncompressedSize
      && HoldsCode(content, contentSize, f.bytes)
    }

    /** The node stands for `f`. */
    ghost predicate Stores(f: File)
      reads this`content, this`contentSize, this`uncompressedSize
      reads this`lockedBy, this`pendingLocks, this`openDescriptors, this`canDoFirstWrite
      reads this`refCount, this`lastRef, this`insertionTime
    {
      && HasContentOf(f)
      && lockedBy == f.lockedBy && pendingLocks == f.pending && openDescriptors == f.openFds
      && canDoFirstWrite == f.firstWriter
      && refCount == f.refCount && lastRef == f.lastRef && insertionTime == f.insertionTime
    }

    /** `UPDATE_CACHE_BITS` */
    method Touch(now: int)
      modifies this`lastRef, this`refCount
      ensures lastRef == now && refCount == old(refCount) + 1
    {
      lastRef := now;
      refCount := refCount + 1;
    }

    /** The part of `lockFileHandler` that concerns the file. */
    method TakeLock(requestor: Fd, now: int, ghost f: File) returns (granted: bool)
      requires Stores(f)
      modifies this`lockedBy, this`pendingLocks, this`canDoFirstWrite, this`refCount, this`lastRef
      ensures granted == (f.lockedBy == 0 || f.lockedBy == requestor)
      ensures Stores(Taken(f, requestor, now))
    {
      if lockedBy != 0 && lockedBy != requestor {
        pendingLocks := pendingLocks + [requestor];
        return false;
      }
      Touch(now);
      lockedBy := requestor;
      canDoFirstWrite := 0;
      return true;
    }

    /** The part of `unlockFileHandler` that concerns the file; `newLock` is the new holder or 0. */
    method GiveLock(requestor: Fd, now: int, ghost f: File) returns (ok: bool, newLock: Fd)
      requires Stores(f)
      modifies this`lockedBy, this`pendingLocks, this`canDoFirstWrite, this`refCount, this`lastRef
      ensures Stores(Unlocked(f, requestor, now)) && ok == (f.lockedBy == requestor)
      ensures newLock == if ok && f.pending != [] then f.pending[0] else 0
    {
      Touch(now);
      newLock := 0;
      ok := lockedBy == requestor;
      if ok {
        newLock, pendingLocks := PopHead(pendingLocks);
        lockedBy := newLock;
        canDoFirstWrite := 0;
      }
    }

    /** The part of `closeFileHandler` that concerns the file. */
    method Shut(requestor: Fd, now: int, ghost f: File)
      requires Stores(f)
      modifies this`openDescriptors, this`canDoFirstWrite, this`refCount, this`lastRef
      ensures Stores(Closed(f, requestor, now))
    {
      Touch(now);
      var popped;
      popped, openDescriptors := PopFd(openDescriptors, requestor);
      canDoFirstWrite := 0;
    }

    /** The part of `openFileHandler` that concerns a file that exists. */
    method Reopen(lock: bool, requestor: Fd, ghost f: File) returns (ok: bool)
      requires Stores(f)
      modifies this`lockedBy, this`openDescriptors
      ensures Stores(Opened(f, lock, requestor)) && ok == !(lock && f.lockedBy != 0)
    {
      ok := true;
      if lock {
        if lockedBy == 0 {
          lockedBy := requestor;
        } else {
          ok := false;
        }
      }
      if ok {
        openDescriptors := openDescriptors + [requestor];
      }
    }

    /** The part of `clientExitHandler` that concerns one file; `newLock` is the new holder or 0. */
    method Abandon(requestor: Fd, ghost f: File) returns (newLock: Fd)
      requires Stores(f)
      modifies this`lockedBy, this`pendingLocks, this`openDescriptors
      ensures Stores(Leave(f, requestor))
      ensures newLock == if f.lockedBy == requestor && f.pending != [] then f.pending[0] else 0
    {
      newLock := 0;
      if lockedBy == requestor {
        newLock, pendingLocks := PopHead(pendingLocks);
        lockedBy := newLock;
      }
      var popped;
      popped, pendingLocks := PopFd(pendingLocks, requestor);
      popped, openDescriptors := PopFd(openDescriptors, requestor);
    }

    /** Whether `requestor` may read or write. */
    method MayUse(requestor: Fd, ghost f: File) returns (ok: bool)
      requires Stores(f)
      ensures ok == f.Accessible(requestor)
    {
      var open := IsFdInList(openDescriptors, requestor);
      return !((lockedBy != 0 && lockedBy != requestor) || !open);
    }

    /** `RLEdecompress` of the content. */
    method Decoded(beyond: Byte, ghost f: File) returns (buf: array<Byte>)
      requires HasContentOf(f) && WellStored(f)
      ensures fresh(buf) && buf[..] == f.bytes
    {
      buf := RunLength.Decompress(content, contentSize, uncompressedSize, 0, beyond, f.bytes);
      assert buf[..] == f.bytes + [];
    }

    /** The part of `readFileHandler` that concerns the file. */
    method Fetch(now: int, beyond: Byte, ghost f: File) returns (buf: array<Byte>)
      requires Stores(f) && WellStored(f)
      modifies this`canDoFirstWrite, this`refCount, this`lastRef
      ensures Stores(f.Touch(now).(firstWriter := 0)) && buf[..] == f.bytes
    {
      Touch(now);
      buf := Decoded(beyond, f);
      canDoFirstWrite := 0;
    }

    /** What `writeToFileHandler` makes of the content: decompressed, extended with `data`, compressed again. */
    method Recode(data: seq<Byte>, beyond: Byte, ghost f: File) returns (newContent: seq<Byte>, newSize: nat)
      requires Stores(f) && WellStored(f)
      ensures HoldsCode(newContent, newSize, f.bytes + data) && newSize == |RunLength.Encode(f.bytes + data)|
    {
      var buf := RunLength.Decompress(content, contentSize, uncompressedSize, |data|, beyond, f.bytes);
      ghost var before := buf[..];
      forall k | 0 <= k < |data| {
        buf[uncompressedSize + k] := data[k];
      }
      assert buf[..] == f.bytes + data by {
        assert forall k :: 0 <= k < |f.bytes| ==> buf[k] == before[k];
      }
      var code, size := RunLength.Compress(buf);
      RunLength.EncodedSize(f.bytes + data);
      newContent, newSize := code[..], size;
      assert newContent[..newSize] == code[..size];
    }

    /** The end of `writeToFileHandler`, after all reference counts have been reset. */
    method Put(newContent: seq<Byte>, newSize: nat, added: nat, ghost f: File, ghost data: seq<Byte>)
      requires Stores(f.(refCount := 0)) && HoldsCode(newContent, newSize, f.bytes + data) && added == |data|
      modifies this`content, this`contentSize, this`uncompressedSize, this`canDoFirstWrite
      ensures Stores(Rewritten(f, data, newSize))
    {
      content := newContent;
      uncompressedSize := uncompressedSize + added;
      contentSize := newSize;
      canDoFirstWrite := 0;
    }

    /** `allocFile` */
    constructor (pathname: Path, now: int)
      ensures Stores(NewFile(pathname, false, 0, now).(openFds := []))
      ensures prevPtr == null && nextPtr == null
    {
      this.pathname := pathname;
      content := Repeat(0 as Byte, INITIALBUFSIZ);
      contentSize, uncompressedSize := 0, 0;
      lockedBy, pendingLocks, openDescriptors, canDoFirstWrite := 0, [], [], 0;
      refCount, lastRef, insertionTime := 0, 0, now;
      prevPtr, nextPtr := null, null;
    }
  }

  /** `isFdInList` */
  method IsFdInList(fds: seq<Fd>, fd: Fd) returns (found: bool)
    ensures found <==> fd in fds
  {
    for k := 0 to |fds|
      invariant fd !in fds[..k]
    {
      if fds[k] == fd {
        return true;
      }
    }
    return false;
  }

  lemma {:induction false} RemoveFirstFrom(fds: seq<Fd>, fd: Fd, k: nat)
    requires k <= |fds| && fd !in fds[..k]
    ensures RemoveFirst(fds, fd) == fds[..k] + RemoveFirst(fds[k..], fd)
  {
    if k == 0 {
      assert fds[0..] == fds;
    } else {
      assert fds[0] in fds[..k];
      assert fds[1..][..k - 1] == fds[..k][1..] && fds[1..][k - 1..] == fds[k..];
      RemoveFirstFrom(fds[1..], fd, k - 1);
      ConcatAssociates([fds[0]], fds[1..][..k - 1], RemoveFirst(fds[k..], fd));
      assert [fds[0]] + fds[1..][..k - 1] == fds[..k];
    }
  }

  /** `popNodeFromFdQueue` for a given descriptor; 0 when it is not there. */
  method PopFd(fds: seq<Fd>, fd: Fd) returns (popped: Fd, rest: seq<Fd>)
    ensures popped == if fd in fds then fd else 0
    ensures rest == RemoveFirst(fds, fd)
  {
    var k := 0;
    while k < |fds| && fds[k] != fd
      invariant k <= |fds| && fd !in fds[..k]
    {
      k := k + 1;
    }
    RemoveFirstFrom(fds, fd, k);
    if k == |fds| {
      assert fds[k..] == [] && fds[..k] == fds;
      return 0, fds;
    }
    assert fds[k..][1..] == fds[k + 1..];
    return fd, fds[..k] + fds[k + 1..];
  }

  /** `popNodeFromFdQueue` for the head of the queue; 0 when it is empty. */
  method PopHead(fds: seq<Fd>) returns (popped: Fd, rest: seq<Fd>)
    ensures if fds == [] then popped == 0 && rest == [] else popped == fds[0] && rest == fds[1..]
  {
    if fds == [] {
      return 0, [];
    }
    return fds[0], fds[1..];
  }

  // ---------------------------------------------------------------- the comparators of src/cacheFns.c

  function LruCmp(f1: FileNode, f2: FileNode): int
    reads f1, f2
  {
    f2.lastRef - f1.lastRef
  }

  function LfuCmp(f1: FileNode, f2: FileNode): int
    reads f1, f2
  {
    f2.refCount - f1.refCount
  }

  function FifoCmp(f1: FileNode, f2: FileNode): int
    reads f1, f2
  {
    f2.insertionTime - f1.insertionTime
  }

  function Compare(algo: Algo, f1: FileNode, f2: FileNode): int
    reads f1, f2
  {
    match algo
    case Fifo => FifoCmp(f1, f2)
    case Lru => LruCmp(f1, f2)
    case Lfu => LfuCmp(f1, f2)
  }

  // ---------------------------------------------------------------- list and index

  ghost function NodeAt(nodes: seq<FileNode>, i: int): FileNode? {
    if 0 <= i < |nodes| then nodes[i] else null
  }

  /** The nodes are linked both ways, in this order. */
  ghost predicate Chained(nodes: seq<FileNode>)
    reads nodes`nextPtr, nodes`prevPtr
  {
    forall i {:trigger nodes[i].nextPtr} {:trigger nodes[i].prevPtr} :: 0 <= i < |nodes| ==>
      nodes[i].nextPtr == NodeAt(nodes, i + 1) && nodes[i].prevPtr == NodeAt(nodes, i - 1)
  }

  ghost predicate Distinct(nodes: seq<FileNode>) {
    forall i, j :: 0 <= i < j < |nodes| ==> nodes[i] != nodes[j]
  }

  ghost predicate Represents(nodes: seq<FileNode>, files: seq<File>)
    reads nodes
  {
    && |nodes| == |files|
    && forall i {:trigger nodes[i].Stores(files[i])} :: 0 <= i < |nodes| ==> nodes[i].Stores(files[i])
  }

  ghost predicate Finds(entries: map<Path, FileNode>, files: seq<File>, nodes: seq<FileNode>, p: Path)
    requires |nodes| == |files|
  {
    (p in entries <==> Has(files, p)) && (p in entries ==> entries[p] == nodes[IndexOf(files, p)])
  }

  /** The index holds exactly the listed files, by path. */
  ghost predicate Maps(entries: map<Path, FileNode>, files: seq<File>, nodes: seq<FileNode>)
    requires |nodes| == |files|
  {
    forall p {:trigger Finds(entries, files, nodes, p)} :: Finds(entries, files, nodes, p)
  }

  lemma MapsAfterUpdate(entries: map<Path, FileNode>, files: seq<File>, nodes: seq<FileNode>, after: seq<File>)
    requires |nodes| == |files| == |after| && Maps(entries, files, nodes)
    requires forall k :: 0 <= k < |files| ==> after[k].path == files[k].path
    ensures Maps(entries, after, nodes)
    ensures DistinctPaths(files) ==> DistinctPaths(after)
  {
    forall p ensures Finds(entries, after, nodes, p) {
      var i, j := IndexOf(files, p), IndexOf(after, p);
      assert Finds(entries, files, nodes, p);
      assert (i < |files| ==> after[i].path == files[i].path) && (j < |files| ==> after[j].path == files[j].path);
    }
  }

  lemma MapsAfterLeave(entries: map<Path, FileNode>, files: seq<File>, nodes: seq<FileNode>, fd: Fd)
    requires |nodes| == |files| && Maps(entries, files, nodes) && DistinctPaths(files)
    ensures Maps(entries, LeaveAll(files, fd), nodes) && DistinctPaths(LeaveAll(files, fd))
  {
    MapsAfterUpdate(entries, files, nodes, LeaveAll(files, fd));
  }

  /** Removing a file moves the ones after it, and leaves no file of its name. */
  lemma IndexWithout(files: seq<File>, i: nat, p: Path)
    requires DistinctPaths(files) && i < |files|
    ensures Has(RemoveAt(files, i), p) <==> Has(files, p) && p != files[i].path
    ensures Has(RemoveAt(files, i), p) ==>
      var k := IndexOf(RemoveAt(files, i), p);
      IndexOf(files, p) == if k < i then k else k + 1
  {
    var after, k := RemoveAt(files, i), IndexOf(files, p);
    if k < |files| && k != i {
      assert after[if k < i then k else k - 1].path == p;
    }
    if Has(after, p) {
      IndexShift(files, i, IndexOf(after, p));
    }
  }

  lemma MapsAfterRemoval(entries: map<Path, FileNode>, files: seq<File>, nodes: seq<FileNode>, i: nat)
    requires |nodes| == |files| && Maps(entries, files, nodes) && DistinctPaths(files) && i < |files|
    ensures Maps(entries - {files[i].path}, RemoveAt(files, i), RemoveAt(nodes, i)) && DistinctPaths(RemoveAt(files, i))
  {
    MembersAfterRemoval(files, i);
    forall p ensures Finds(entries - {files[i].path}, RemoveAt(files, i), RemoveAt(nodes, i), p) {
      IndexWithout(files, i, p);
      assert Finds(entries, files, nodes, p);
    }
  }

  lemma MapsAfterAppend(entries: map<Path, FileNode>, files: seq<File>, nodes: seq<FileNode>, f: File, n: FileNode)
    requires |nodes| == |files| && Maps(entries, files, nodes) && DistinctPaths(files) && !Has(files, f.path)
    ensures Maps(entries[f.path := n], files + [f], nodes + [n]) && DistinctPaths(files + [f])
  {
    var entries', all, nodes' := entries[f.path := n], files + [f], nodes + [n];
    assert forall k :: 0 <= k < |files| ==> all[k].path == files[k].path;
    assert all[|files|] == f;
    forall p ensures Finds(entries', all, nodes', p) {
      var i, j := IndexOf(files, p), IndexOf(all, p);
      assert Finds(entries, files, nodes, p);
    }
  }

  /** Nodes `lo` to `hi` stand for these files. */
  ghost predicate StoresRange(nodes: seq<FileNode>, files: seq<File>, lo: nat, hi: nat)
    requires lo <= hi <= |nodes| == |files|
    reads nodes
  {
    forall i {:trigger nodes[i].Stores(files[i])} :: lo <= i < hi ==> nodes[i].Stores(files[i])
  }

  twostate lemma RangeKept(nodes: seq<FileNode>, new files: seq<File>, new lo: nat, new hi: nat)
    requires lo <= hi <= |nodes| == |files| && old(StoresRange(nodes, files, lo, hi))
    requires forall k {:trigger SameFile(nodes[k])} :: lo <= k < hi ==> SameFile(nodes[k])
    ensures StoresRange(nodes, files, lo, hi)
  {
    forall k | lo <= k < hi ensures nodes[k].Stores(files[k]) {
      assert old(nodes[k].Stores(files[k])) && SameFile(nodes[k]);
    }
  }

  ghost predicate RealWaiters(files: seq<File>) {
    forall k, fd :: 0 <= k < |files| && fd in files[k].pending ==> fd > 0
  }

  lemma HeirsOfMore(files: seq<File>, fd: Fd, k: nat)
    requires k < |files|
    ensures Heirs(files[..k + 1], fd) ==
      Heirs(files[..k], fd) + if files[k].lockedBy == fd && files[k].pending != [] then [files[k].pending[0]] else []
  {
    if k == 0 {
      assert files[..1][1..] == [];
    } else {
      HeirsOfMore(files[1..], fd, k - 1);
      assert files[..k + 1][1..] == files[1..][..k] && files[..k][1..] == files[1..][..k - 1];
    }
  }

  lemma CreationIsDone(s: Store, path: Path, lock: bool, fd: Fd, now: int)
    ensures Create(s, path, lock, fd, now).reply == Done
  {
  }

  lemma NoHeirs(fd: Fd)
    ensures Heirs([], fd) == []
  {
  }

  /** Evicted nodes, linked by `nextPtr`, the latest first; they still hold the content of the victims. */
  ghost predicate EvictedChain(evicted: seq<FileNode>, victims: seq<File>)
    reads evicted
  {
    && |evicted| == |victims|
    && (forall k {:trigger evicted[k].nextPtr} :: 0 <= k < |evicted| ==> evicted[k].nextPtr == NodeAt(evicted, k + 1))
    && (forall k {:trigger Kept(evicted, victims, k)} :: 0 <= k < |evicted| ==> Kept(evicted, victims, k))
  }

  ghost predicate Evicted(head: FileNode?, evicted: seq<FileNode>, victims: seq<File>)
    reads evicted
  {
    head == NodeAt(evicted, 0) && EvictedChain(evicted, victims)
  }

  ghost predicate Kept(evicted: seq<FileNode>, victims: seq<File>, k: nat)
    requires k < |evicted| == |victims|
    reads evicted
  {
    evicted[k].HasContentOf(victims[|victims| - 1 - k])
  }

  twostate predicate SameEvicted(n: FileNode)
    reads n
  {
    unchanged(n`nextPtr, n`content, n`contentSize, n`uncompressedSize)
  }

  /** One more node at the head of the evicted ones. */
  twostate lemma EvictedMore(evicted: seq<FileNode>, new victims: seq<File>, new victim: FileNode, new f: File)
    requires old(EvictedChain(evicted, victims)) && victim.nextPtr == NodeAt(evicted, 0) && victim.HasContentOf(f)
    requires forall k {:trigger SameEvicted(evicted[k])} :: 0 <= k < |evicted| ==> SameEvicted(evicted[k])
    ensures Evicted(victim, [victim] + evicted, victims + [f])
  {
    var all, files := [victim] + evicted, victims + [f];
    forall k | 0 <= k < |all| ensures all[k].nextPtr == NodeAt(all, k + 1) && Kept(all, files, k) {
      assert k > 0 ==>
        && SameEvicted(evicted[k - 1]) && old(Kept(evicted, victims, k - 1))
        && old(evicted[k - 1].nextPtr) == NodeAt(evicted, k);
    }
  }

  /** What is still to be evicted from `s` completes `victims` to what was to be evicted at first. */
  ghost predicate Reaches(s: Store, path: Path, growth: int, victims: seq<File>, final: (Store, seq<File>)) {
    EvictUntilFits(s, path, growth).0 == final.0 && victims + EvictUntilFits(s, path, growth).1 == final.1
  }

  lemma ReachesAfterOne(s: Store, path: Path, growth: int, victims: seq<File>, final: (Store, seq<File>))
    requires Reaches(s, path, growth, victims, final)
    requires s.currStorageSize + growth > s.maxStorageSize && Victim(s.files, s.algo, path) < |s.files|
    ensures Reaches(EvictOne(s, path), path, growth, victims + [s.files[Victim(s.files, s.algo, path)]], final)
  {
    var first := [s.files[Victim(s.files, s.algo, path)]];
    ConcatAssociates(victims, first, EvictUntilFits(EvictOne(s, path), path, growth).1);
  }

  lemma {:induction false} WaitersOfMore(victims: seq<File>, f: File)
    ensures Waiters(victims + [f]) == Waiters(victims) + f.pending
  {
    if victims == [] {
      assert [f][1..] == [];
    } else {
      assert (victims + [f])[1..] == victims[1..] + [f];
      WaitersOfMore(victims[1..], f);
    }
  }

  lemma FrameInParts(before: seq<Byte>, path: Path, bytes: seq<Byte>)
    ensures before + (Wire.Padded(|path|, Wire.METADATA_SIZE) + path + Wire.Padded(|bytes|, Wire.METADATA_SIZE)) + bytes
      == before + Wire.Frame((path, bytes))
  {
  }

  lemma NoFrames()
    ensures Wire.Frames([]) == []
  {
  }

  lemma {:induction false} FramesOfMore(files: seq<(Path, seq<Byte>)>, f: (Path, seq<Byte>))
    ensures Wire.Frames(files + [f]) == Wire.Frames(files) + Wire.Frame(f)
  {
    hide Wire.Frame;
    if files == [] {
      assert [f][1..] == [];
    } else {
      assert (files + [f])[1..] == files[1..] + [f];
      FramesOfMore(files[1..], f);
    }
  }

  lemma FramesOfLast(files: seq<(Path, seq<Byte>)>, k: nat)
    requires k < |files|
    ensures Wire.Frames(files[..k + 1]) == Wire.Frames(files[..k]) + Wire.Frame(files[k])
  {
    assert files[..k + 1] == files[..k] + [files[k]];
    FramesOfMore(files[..k], files[k]);
  }

  lemma ContentsOfPrefix(files: seq<File>, k: nat)
    requires k <= |files|
    ensures Contents(files[..k]) == Contents(files)[..k]
  {
  }

  /**
    The growth of the buffer in `readNFilesHandler`: it is allocated with twice what is needed, but recorded
    with twice the old record, so the record lags behind and never exceeds what there is.
  */
  method Grow(ret: array<Byte>, retMaxSize: nat, retCurrSize: nat, retNewSize: nat)
    returns (ret': array<Byte>, retMaxSize': nat)
    requires retCurrSize <= retNewSize && retCurrSize <= ret.Length && retMaxSize <= ret.Length
    ensures ret' == ret || fresh(ret')
    ensures retNewSize <= ret'.Length && retMaxSize' <= ret'.Length
    ensures ret'[..retCurrSize] == ret[..retCurrSize]
  {
    if retNewSize <= retMaxSize {
      return ret, retMaxSize;
    }
    ret' := new Byte[2 * retNewSize];
    CopyInto(ret', 0, ret[..retCurrSize]);
    retMaxSize' := 2 * retMaxSize;
  }

  /** The old list, or what is left of it after one eviction. */
  ghost predicate KeptFrom(before: seq<FileNode>, kept: seq<FileNode>) {
    kept == before || exists v: nat :: v < |before| && kept == RemoveAt(before, v)
  }

  /** Nothing about the node has changed but its place in the list. */
  twostate predicate SameFile(n: FileNode)
    reads n
  {
    && unchanged(n`content, n`contentSize, n`uncompressedSize)
    && unchanged(n`lockedBy, n`pendingLocks, n`openDescriptors, n`canDoFirstWrite)
    && unchanged(n`refCount, n`lastRef, n`insertionTime)
  }

  twostate lemma RepresentsAfterAppend(nodes: seq<FileNode>, new files: seq<File>, new n: FileNode, new f: File)
    requires old(Represents(nodes, files)) && n.Stores(f)
    requires forall k {:trigger SameFile(nodes[k])} :: 0 <= k < |nodes| ==> SameFile(nodes[k])
    ensures Represents(nodes + [n], files + [f])
  {
    forall k | 0 <= k <= |nodes| ensures (nodes + [n])[k].Stores((files + [f])[k]) {
      assert k < |nodes| ==> old(nodes[k].Stores(files[k])) && SameFile(nodes[k]);
    }
  }

  /** Only the reference count has changed, to zero. */
  twostate predicate OnlyReset(n: FileNode)
    reads n
  {
    && unchanged(n`content, n`contentSize, n`uncompressedSize)
    && unchanged(n`lockedBy, n`pendingLocks, n`openDescriptors, n`canDoFirstWrite)
    && n.refCount == 0 && unchanged(n`lastRef, n`insertionTime)
  }

  twostate lemma RepresentsAfterReset(nodes: seq<FileNode>, new files: seq<File>)
    requires old(Represents(nodes, files))
    requires forall k {:trigger OnlyReset(nodes[k])} :: 0 <= k < |nodes| ==> OnlyReset(nodes[k])
    ensures Represents(nodes, ResetRefCounts(files))
  {
    forall k | 0 <= k < |nodes| ensures nodes[k].Stores(ResetRefCounts(files)[k]) {
      assert old(nodes[k].Stores(files[k])) && OnlyReset(nodes[k]);
    }
  }

  twostate lemma RepresentsAfterEdit(nodes: seq<FileNode>, new files: seq<File>, new i: nat, new f: File)
    requires old(Represents(nodes, files)) && i < |nodes| && nodes[i].Stores(f)
    requires forall k {:trigger SameFile(nodes[k])} :: 0 <= k < |nodes| && k != i ==> SameFile(nodes[k])
    ensures Represents(nodes, files[i := f])
  {
    forall k | 0 <= k < |nodes| ensures nodes[k].Stores(files[i := f][k]) {
      assert k != i ==> old(nodes[k].Stores(files[k])) && SameFile(nodes[k]);
    }
  }

  /** Making the neighbours of node `i` point past it leaves a list without it. */
  twostate lemma ChainedWithout(nodes: seq<FileNode>, new i: nat)
    requires old(Chained(nodes)) && i < |nodes|
    requires forall k {:trigger nodes[k].nextPtr} :: 0 <= k < |nodes| ==>
      nodes[k].nextPtr == if k == i - 1 then NodeAt(nodes, i + 1) else old(nodes[k].nextPtr)
    requires forall k {:trigger nodes[k].prevPtr} :: 0 <= k < |nodes| ==>
      nodes[k].prevPtr == if k == i + 1 then NodeAt(nodes, i - 1) else old(nodes[k].prevPtr)
    ensures Chained(RemoveAt(nodes, i))
  {
    var rest := RemoveAt(nodes, i);
    forall k | 0 <= k < |rest|
      ensures rest[k].nextPtr == NodeAt(rest, k + 1) && rest[k].prevPtr == NodeAt(rest, k - 1)
    {
      var j := if k < i then k else k + 1;
      assert rest[k] == nodes[j];
      assert old(nodes[j].nextPtr) == NodeAt(nodes, j + 1) && old(nodes[j].prevPtr) == NodeAt(nodes, j - 1);
    }
  }

  twostate lemma RepresentsAfterRemoval(nodes: seq<FileNode>, new files: seq<File>, new i: nat)
    requires old(Represents(nodes, files)) && i < |nodes|
    requires forall k {:trigger SameFile(nodes[k])} :: 0 <= k < |nodes| && k != i ==> SameFile(nodes[k])
    ensures Represents(RemoveAt(nodes, i), RemoveAt(files, i))
  {
    forall k | 0 <= k < |nodes| - 1 ensures RemoveAt(nodes, i)[k].Stores(RemoveAt(files, i)[k]) {
      var j := if k < i then k else k + 1;
      assert old(nodes[j].Stores(files[j])) && SameFile(nodes[j]);
    }
  }

  lemma StoredApart(nodes: seq<FileNode>, files: seq<File>)
    requires Represents(nodes, files) && DistinctPaths(files)
    ensures Distinct(nodes)
  {
    forall i, j | 0 <= i < j < |nodes| ensures nodes[i] != nodes[j] {
      assert nodes[i].Stores(files[i]) && nodes[j].Stores(files[j]);
    }
  }

  /** Evicted nodes stay as they are while listed ones change. */
  twostate lemma EvictedKept(evicted: seq<FileNode>, new victims: seq<File>)
    requires old(EvictedChain(evicted, victims))
    requires forall k {:trigger SameEvicted(evicted[k])} :: 0 <= k < |evicted| ==> SameEvicted(evicted[k])
    ensures EvictedChain(evicted, victims)
  {
    forall k | 0 <= k < |evicted| ensures evicted[k].nextPtr == NodeAt(evicted, k + 1) && Kept(evicted, victims, k) {
      assert SameEvicted(evicted[k]) && old(Kept(evicted, victims, k));
      assert old(evicted[k].nextPtr) == NodeAt(evicted, k + 1);
    }
  }

  /** A write to the file at `i`, once it is known to be allowed. */
  ghost function AllowedWrite(s: Store, i: nat, data: seq<Byte>, now: int): Result
    requires i < |s.files|
  {
    var f := s.files[i].Touch(now);
    var touched, size := s.(files := s.files[i := f]), |RunLength.Encode(f.bytes + data)|;
    if size > s.maxStorageSize then Fail(touched, E2Big) else WriteFitting(touched, f.path, f, data, size)
  }

  lemma TouchedKeepsInv(s: Store, i: nat, now: int)
    requires Inv(s) && i < |s.files|
    ensures Inv(s.(files := s.files[i := s.files[i].Touch(now)]))
    ensures WellStored(s.files[i].Touch(now)) && WellStored(s.files[i])
  {
    assert FileOk(s.files[i]);
    EditKeeps(s, i, s.files[i].Touch(now));
  }

  ghost predicate Apart(evicted: seq<FileNode>, nodes: seq<FileNode>) {
    forall k :: 0 <= k < |evicted| ==> evicted[k] !in nodes
  }

  lemma ApartAfterOne(evicted: seq<FileNode>, nodes: seq<FileNode>, v: nat)
    requires Apart(evicted, nodes) && Distinct(nodes) && v < |nodes|
    ensures Apart([nodes[v]] + evicted, RemoveAt(nodes, v))
    ensures forall k :: 0 <= k < |nodes| - 1 ==> RemoveAt(nodes, v)[k] in nodes
  {
    var all, rest := [nodes[v]] + evicted, RemoveAt(nodes, v);
    forall k | 0 <= k < |rest| ensures rest[k] in nodes && rest[k] != nodes[v] {
      assert rest[k] == nodes[if k < v then k else k + 1];
    }
    forall k | 0 <= k < |all| ensures all[k] !in rest {
      assert k > 0 ==> all[k] == evicted[k - 1];
    }
  }

  lemma OnlyThatNode(nodes: seq<FileNode>, files: seq<File>, i: nat)
    requires Represents(nodes, files) && DistinctPaths(files) && i < |nodes|
    ensures forall k :: 0 <= k < |nodes| ==> (nodes[k] == nodes[i] <==> files[k].path == files[i].path)
  {
    StoredApart(nodes, files);
  }

  /** Where the element at `i` is after the one at `v` has been removed. */
  function Shifted(i: nat, v: nat): nat {
    if i < v then i else if i > v then i - 1 else 0
  }

  /** One turn of the loop finds a victim other than the file being written and keeps things in place for the next. */
  lemma Turn(s: Store, path: Path, i: nat, growth: int, v: nat)
    requires Loose(s) && Spares(s, path, i, growth) && v == Victim(s.files, s.algo, path)
    requires s.currStorageSize + growth > s.maxStorageSize
    ensures v < |s.files| && v != i && Loose(EvictOne(s, path))
    ensures Spares(EvictOne(s, path), path, Shifted(i, v), growth)
  {
    VictimExists(s, path, i, growth);
    EvictOneKeeps(s, path);
    assert RemoveAt(s.files, v)[Shifted(i, v)] == s.files[i];
  }

  /** A full store has a file to evict. */
  lemma AnyFileCanGo(s: Store)
    requires Inv(s)
    ensures s.currFileNum == s.maxFileNum ==> Victim(s.files, s.algo, []) < |s.files|
    ensures forall k :: 0 <= k < |s.files| ==> s.files[k].path != []
  {
    assert forall k :: 0 <= k < |s.files| ==> FileOk(s.files[k]);
    assert s.files != [] ==> s.files[0].path != [];
  }

  /** Whoever is first in a queue is a client, not nobody. */
  lemma HeadIsReal(f: File)
    requires QueueOk(f)
    ensures f.pending != [] ==> f.pending[0] > 0 && f.pending[..1] == [f.pending[0]]
  {
    assert f.pending != [] ==> f.pending[0] in f.pending;
  }

  class CacheStorage {
    const maxFileNum: nat
    const maxStorageSize: nat
    const replacementAlgo: Algo
    var currFileNum: int
    var currStorageSize: int
    var hPtr: FileNode?
    var tPtr: FileNode?
    const dictStore: IclHash.Table<FileNode>
    var maxReachedFileNum: int
    var maxReachedStorageSize: int
    var numVictims: int
    /** The nodes of the list, first to last. */
    ghost var nodes: seq<FileNode>
    /** The files as clients see them. */
    ghost var files: seq<File>

    /** The storage as clients see it. */
    ghost function Model(): Store
      reads this
    {
      Store(files, maxFileNum, maxStorageSize, replacementAlgo, currFileNum, currStorageSize,
            maxReachedFileNum, maxReachedStorageSize, numVictims)
    }

    ghost predicate Linked()
      reads this`hPtr, this`tPtr, this`nodes, nodes`nextPtr, nodes`prevPtr
    {
      hPtr == NodeAt(nodes, 0) && tPtr == NodeAt(nodes, |nodes| - 1) && Chained(nodes)
    }

    /** What is in memory is a list and an index of these files; the counters may be off. */
    ghost predicate Shape()
      reads this`hPtr, this`tPtr, this`nodes, this`files, nodes
      reads dictStore, dictStore.buckets, dictStore.repr
    {
      && Linked() && Represents(nodes, files) && DistinctPaths(files)
      && dictStore.Valid() && Maps(dictStore.entries, files, nodes)
    }

    ghost predicate Valid()
      reads this, nodes
      reads dictStore, dictStore.buckets, dictStore.repr
    {
      Shape() && Inv(Model())
    }

    /** `allocStorage` */
    constructor (maxFileNum: nat, maxStorageSize: nat, algo: Algo)
      requires maxFileNum > 0
      ensures Valid() && Model() == InitialStore(maxFileNum, maxStorageSize, algo)
      ensures fresh(dictStore) && fresh(dictStore.buckets) && dictStore.repr == {} && nodes == []
    {
      this.maxFileNum, this.maxStorageSize, replacementAlgo := maxFileNum, maxStorageSize, algo;
      dictStore := new IclHash.Table<FileNode>(maxFileNum / 10 + 1);
      currFileNum, currStorageSize, maxReachedFileNum, maxReachedStorageSize, numVictims := 0, 0, 0, 0, 0;
      hPtr, tPtr := null, null;
      nodes, files := [], [];
    }

    lemma NodeStores(i: nat)
      requires Shape() && i < |nodes|
      ensures |nodes| == |files| && nodes[i].Stores(files[i])
    {
    }

    lemma StoredAreOk()
      requires Valid()
      ensures |nodes| == |files| && DistinctPaths(files)
      ensures forall k {:trigger files[k]} :: 0 <= k < |files| ==> FileOk(files[k])
    {
      forall k | 0 <= k < |files| ensures FileOk(files[k]) {
      }
    }

    lemma SameCount()
      requires Shape()
      ensures |nodes| == |files| && hPtr == NodeAt(nodes, 0)
    {
    }

    lemma NextOf(i: nat)
      requires Shape() && i < |nodes|
      ensures nodes[i].nextPtr == NodeAt(nodes, i + 1)
    {
    }

    lemma Placed(i: nat)
      requires Shape() && i < |nodes|
      ensures |nodes| == |files| && Distinct(nodes) && nodes[i].Stores(files[i])
    {
      StoredApart(nodes, files);
    }

    lemma WhichNode(i: nat)
      requires Shape() && i < |nodes|
      ensures |nodes| == |files| && Distinct(nodes)
      ensures forall k :: 0 <= k < |nodes| ==> (nodes[k] == nodes[i] <==> files[k].path == files[i].path)
    {
      OnlyThatNode(nodes, files, i);
      StoredApart(nodes, files);
    }

    /** `findFile` */
    method FindFile(pathname: Path) returns (fptr: FileNode?)
      requires Shape()
      ensures fptr == NodeAt(nodes, IndexOf(files, pathname)) && |nodes| == |files|
    {
      var found := dictStore.Find(pathname);
      match found {
        case None => fptr := null;
        case Some(n) => fptr := n;
      }
      assert Finds(dictStore.entries, files, nodes, pathname);
    }

    /** One candidate of the scan against the best so far. */
    ghost predicate BestBefore(path: Path, k: nat, v: nat)
      reads this`files
    {
      && v < |files| && files[v].path != path
      && forall j {:trigger files[j].path} ::
           0 <= j < |files| && (j < k || j < v) && j != v && files[j].path != path ==>
             Before(files, replacementAlgo, v, j)
    }

    /** The scan of `getVictim`. First-in-first-out takes the first file that is not spared. */
    method ScanForVictim(spare: FileNode?, ghost path: Path) returns (victim: FileNode)
      requires Linked() && Represents(nodes, files) && !OnlySpare(files, path, |files|) && DistinctPaths(files)
      requires forall i :: 0 <= i < |nodes| ==> (nodes[i] == spare <==> files[i].path == path)
      ensures victim == NodeAt(nodes, Victim(files, replacementAlgo, path))
    {
      ghost var v := if nodes[0] != spare then 0 else 1;
      victim := if hPtr != spare then hPtr else hPtr.nextPtr;
      if replacementAlgo != Fifo {
        var currPtr := hPtr;
        ghost var k := 0;
        while currPtr != null
          invariant k <= |nodes| && currPtr == NodeAt(nodes, k)
          invariant v < |nodes| && victim == nodes[v] && BestBefore(path, k, v)
          decreases |nodes| - k
        {
          assert nodes[k].Stores(files[k]) && nodes[v].Stores(files[v]) && nodes[k].nextPtr == NodeAt(nodes, k + 1);
          if currPtr != spare && Compare(replacementAlgo, currPtr, victim) > 0 {
            victim, v := currPtr, k;
          }
          currPtr, k := currPtr.nextPtr, k + 1;
        }
      }
      VictimIsUnique(files, replacementAlgo, path, v);
    }

    /** `getVictim`: the file that StoreModel.Victim says, and one more victim counted. */
    method GetVictim(spare: FileNode?, ghost path: Path) returns (victim: FileNode)
      requires Shape() && !OnlySpare(files, path, |files|)
      requires forall i :: 0 <= i < |nodes| ==> (nodes[i] == spare <==> files[i].path == path)
      modifies this`numVictims
      ensures Shape() && Model() == old(Model()).(numVictims := old(numVictims) + 1)
      ensures victim == NodeAt(nodes, Victim(files, replacementAlgo, path))
    {
      numVictims := numVictims + 1;
      assert Shape();
      victim := ScanForVictim(spare, path);
    }

    /** The relinking in `destroyFile`. */
    method Unlink(fptr: FileNode, ghost i: nat)
      requires Linked() && Distinct(nodes) && i < |nodes| && fptr == nodes[i]
      modifies this`hPtr, this`tPtr, this`nodes, nodes`nextPtr, nodes`prevPtr
      ensures Linked() && nodes == RemoveAt(old(nodes), i)
    {
      assert fptr.nextPtr == NodeAt(nodes, i + 1) && fptr.prevPtr == NodeAt(nodes, i - 1);
      if fptr.prevPtr != null {
        fptr.prevPtr.nextPtr := fptr.nextPtr;
      } else {
        hPtr := fptr.nextPtr;
      }
      if fptr.nextPtr != null {
        fptr.nextPtr.prevPtr := fptr.prevPtr;
      } else {
        tPtr := fptr.prevPtr;
      }
      ChainedWithout(nodes, i);
      nodes := RemoveAt(nodes, i);
    }

    /** The part of `destroyFile` that concerns the list and the counters. */
    method Detach(fptr: FileNode, ghost i: nat) returns (notifyList: seq<Fd>)
      requires Linked() && Represents(nodes, files) && DistinctPaths(files) && i < |nodes| && fptr == nodes[i]
      modifies this`hPtr, this`tPtr, this`nodes, this`files, this`currFileNum, this`currStorageSize
      modifies nodes`nextPtr, nodes`prevPtr, fptr`openDescriptors
      ensures Linked() && Represents(nodes, files) && Model() == Destroy(old(Model()), i)
      ensures nodes == RemoveAt(old(nodes), i)
      ensures notifyList == old(files[i].pending)
      ensures fptr.HasContentOf(old(files[i]))
    {
      hide HoldsCode, Chained, DistinctPaths;
      ghost var n0, f0 := nodes, files;
      StoredApart(n0, f0);
      assert fptr.Stores(f0[i]);
      notifyList := fptr.pendingLocks;
      fptr.openDescriptors := [];
      currFileNum := currFileNum - 1;
      currStorageSize := currStorageSize - fptr.contentSize;
      files := RemoveAt(f0, i);
      Unlink(fptr, i);
      RepresentsAfterRemoval(n0, f0, i);
    }

    /** The part of `destroyFile` that concerns the index. */
    method Forget(fptr: FileNode, ghost i: nat)
      requires Shape() && i < |nodes| && fptr == nodes[i]
      modifies dictStore`nentries, dictStore`entries, dictStore`chains, dictStore.buckets, dictStore.repr`next
      ensures dictStore.Valid() && dictStore.repr == old(dictStore.repr) && |nodes| == |files|
      ensures Linked() && Represents(nodes, files) && DistinctPaths(files)
      ensures Maps(dictStore.entries, RemoveAt(files, i), RemoveAt(nodes, i)) && DistinctPaths(RemoveAt(files, i))
    {
      hide HoldsCode, Chained, RemoveAt;
      MapsAfterRemoval(dictStore.entries, files, nodes, i);
      assert fptr.Stores(files[i]);
      assert Finds(dictStore.entries, files, nodes, fptr.pathname);
      var status := dictStore.Delete(fptr.pathname);
    }

    /** `destroyFile`: takes the file off the list, the counters and the index; returns who was waiting for it. */
    method DestroyFile(fptr: FileNode, ghost i: nat) returns (notifyList: seq<Fd>)
      requires Shape() && i < |nodes| && fptr == nodes[i]
      modifies this`hPtr, this`tPtr, this`nodes, this`files, this`currFileNum, this`currStorageSize
      modifies nodes`nextPtr, nodes`prevPtr, fptr`openDescriptors
      modifies dictStore`nentries, dictStore`entries, dictStore`chains, dictStore.buckets, dictStore.repr`next
      ensures Shape() && Model() == Destroy(old(Model()), i) && nodes == RemoveAt(old(nodes), i)
      ensures notifyList == old(files[i].pending)
      ensures fptr.HasContentOf(old(files[i])) && dictStore.repr == old(dictStore.repr)
    {
      hide HoldsCode, Chained, RemoveAt, Maps, DistinctPaths, Represents, FileNode.HasContentOf, IclHash.Table.Valid;
      Forget(fptr, i);
      notifyList := Detach(fptr, i);
    }

    /** Puts a node at the end of the list. */
    method Attach(filePtr: FileNode)
      requires Linked() && filePtr !in nodes && filePtr.prevPtr == null && filePtr.nextPtr == null
      modifies this`hPtr, this`tPtr, this`nodes, filePtr`prevPtr, nodes`nextPtr
      ensures Linked() && nodes == old(nodes) + [filePtr]
    {
      ghost var n := |nodes|;
      assert n > 0 ==> nodes[n - 1].nextPtr == NodeAt(nodes, n) && nodes[0].prevPtr == null;
      if hPtr == null {
        hPtr := filePtr;
      } else {
        filePtr.prevPtr := tPtr;
        if tPtr != null {
          tPtr.nextPtr := filePtr;
        }
      }
      tPtr := filePtr;
      nodes := nodes + [filePtr];
      forall k | 0 <= k < |nodes|
        ensures nodes[k].nextPtr == NodeAt(nodes, k + 1) && nodes[k].prevPtr == NodeAt(nodes, k - 1)
      {
        assert k < n ==> nodes[k] == old(nodes)[k] && old(nodes[k].nextPtr) == old(NodeAt(nodes, k + 1));
      }
    }

    /** The part of `addFileToStore` that concerns the list. */
    method Append(filePtr: FileNode, ghost f: File)
      requires Linked() && Represents(nodes, files) && filePtr.Stores(f)
      requires filePtr !in nodes && filePtr.prevPtr == null && filePtr.nextPtr == null
      modifies this`hPtr, this`tPtr, this`nodes, this`files, filePtr`prevPtr, nodes`nextPtr
      ensures Linked() && Represents(nodes, files) && files == old(files) + [f] && nodes == old(nodes) + [filePtr]
    {
      hide HoldsCode, Chained, DistinctPaths;
      RepresentsAfterAppend(nodes, files, filePtr, f);
      files := files + [f];
      Attach(filePtr);
    }

    /** The part of `addFileToStore` that concerns the list and the index. */
    method Enter(filePtr: FileNode, ghost f: File)
      requires Shape() && filePtr !in nodes && filePtr.prevPtr == null && filePtr.nextPtr == null
      requires filePtr.Stores(f) && !Has(files, f.path)
      modifies this`hPtr, this`tPtr, this`nodes, this`files, filePtr`prevPtr, nodes`nextPtr
      modifies dictStore`nentries, dictStore`entries, dictStore`chains, dictStore`repr, dictStore.buckets
      ensures Shape() && files == old(files) + [f] && nodes == old(nodes) + [filePtr]
      ensures fresh(dictStore.repr - old(dictStore.repr))
    {
      hide HoldsCode;
      MapsAfterAppend(dictStore.entries, files, nodes, f, filePtr);
      assert Finds(dictStore.entries, files, nodes, f.path);
      var ok := dictStore.Insert(filePtr.pathname, filePtr);
      Append(filePtr, f);
    }

    /** `addFileToStore`; the file is not in the list yet, and no listed file has its name. */
    method AddFileToStore(filePtr: FileNode, ghost f: File)
      requires Shape() && filePtr !in nodes && filePtr.prevPtr == null && filePtr.nextPtr == null
      requires filePtr.Stores(f) && !Has(files, f.path)
      modifies this`hPtr, this`tPtr, this`nodes, this`files, this`currFileNum, this`currStorageSize
      modifies this`maxReachedFileNum, this`maxReachedStorageSize, filePtr`prevPtr, nodes`nextPtr
      modifies dictStore`nentries, dictStore`entries, dictStore`chains, dictStore`repr, dictStore.buckets
      ensures Shape() && Model() == AddFile(old(Model()), f) && nodes == old(nodes) + [filePtr]
      ensures fresh(dictStore.repr - old(dictStore.repr))
    {
      hide HoldsCode, Shape;
      Enter(filePtr, f);
      currFileNum := currFileNum + 1;
      currStorageSize := currStorageSize + filePtr.contentSize;
      maxReachedFileNum := Max(maxReachedFileNum, currFileNum);
      maxReachedStorageSize := Max(maxReachedStorageSize, currStorageSize);
    }

    /** `tmpPtr->refCount = 0` for every listed file. */
    method ZeroRefCounts()
      requires Linked()
      modifies nodes`refCount
      ensures forall j {:trigger nodes[j].refCount} :: 0 <= j < |nodes| ==> nodes[j].refCount == 0
    {
      ghost var k := 0;
      var tmpPtr := hPtr;
      while tmpPtr != null
        invariant k <= |nodes| && tmpPtr == NodeAt(nodes, k)
        invariant forall j {:trigger nodes[j].refCount} :: 0 <= j < k ==> nodes[j].refCount == 0
        decreases |nodes| - k
      {
        tmpPtr.refCount := 0;
        tmpPtr, k := tmpPtr.nextPtr, k + 1;
      }
    }

    /** The loop that forgets how often files were used, with what it does to the files. */
    method ResetAllRefCounts()
      requires Shape()
      modifies this`files, nodes`refCount
      ensures Shape() && Model() == old(Model()).(files := ResetRefCounts(old(files)))
    {
      hide HoldsCode;
      MapsAfterUpdate(dictStore.entries, files, nodes, ResetRefCounts(files));
      ZeroRefCounts();
      RepresentsAfterReset(nodes, files);
      files := ResetRefCounts(files);
    }

    /** The part of `lockFileHandler` that follows the look-up. */
    method LockNode(fptr: FileNode, requestor: Fd, now: int, ghost i: nat) returns (granted: bool)
      requires Shape() && i < |nodes| && fptr == nodes[i]
      modifies this`files, nodes`lockedBy, nodes`pendingLocks, nodes`canDoFirstWrite, nodes`refCount, nodes`lastRef
      ensures Shape() && granted == (old(files[i]).lockedBy == 0 || old(files[i]).lockedBy == requestor)
      ensures files == old(files)[i := Taken(old(files[i]), requestor, now)]
    {
      hide HoldsCode, Taken, Chained, Maps, DistinctPaths, IclHash.Table.Valid;
      Placed(i);
      granted := fptr.TakeLock(requestor, now, files[i]);
      RepresentsAfterEdit(nodes, files, i, Taken(files[i], requestor, now));
      MapsAfterUpdate(dictStore.entries, files, nodes, files[i := Taken(files[i], requestor, now)]);
      files := files[i := Taken(files[i], requestor, now)];
    }

    /** `lockFileHandler` */
    method LockFile(pathname: Path, requestor: Fd, now: int) returns (reply: Reply)
      requires Valid() && CanLock(Model(), requestor)
      modifies this`files, nodes`lockedBy, nodes`pendingLocks, nodes`canDoFirstWrite, nodes`refCount, nodes`lastRef
      ensures Valid() && Model() == Lock(old(Model()), pathname, requestor, now).store
      ensures reply == Lock(old(Model()), pathname, requestor, now).reply
    {
      hide Shape;
      LockKeeps(Model(), pathname, requestor, now);
      if pathname == [] {
        return Failed(EInval);
      }
      var fptr := FindFile(pathname);
      if fptr == null {
        return Failed(ENoEnt);
      }
      var granted := LockNode(fptr, requestor, now, IndexOf(files, pathname));
      return if granted then Done else Waiting;
    }

    /** The part of `unlockFileHandler` that follows the look-up. */
    method UnlockNode(fptr: FileNode, requestor: Fd, now: int, ghost i: nat) returns (ok: bool, newLock: Fd)
      requires Shape() && i < |nodes| && fptr == nodes[i]
      modifies this`files, nodes`lockedBy, nodes`pendingLocks, nodes`canDoFirstWrite, nodes`refCount, nodes`lastRef
      ensures Shape() && files == old(files)[i := Unlocked(old(files[i]), requestor, now)]
      ensures ok == (old(files[i]).lockedBy == requestor)
      ensures newLock == if ok && old(files[i]).pending != [] then old(files[i]).pending[0] else 0
    {
      hide HoldsCode, Unlocked, Chained, Maps, DistinctPaths, IclHash.Table.Valid;
      Placed(i);
      ok, newLock := fptr.GiveLock(requestor, now, files[i]);
      RepresentsAfterEdit(nodes, files, i, Unlocked(files[i], requestor, now));
      MapsAfterUpdate(dictStore.entries, files, nodes, files[i := Unlocked(files[i], requestor, now)]);
      files := files[i := Unlocked(files[i], requestor, now)];
    }

    /** `unlockFileHandler`; `newLockFd` is the client that has got the lock, or 0. */
    method UnlockFile(pathname: Path, requestor: Fd, now: int) returns (reply: Reply, newLockFd: Fd)
      requires Valid()
      modifies this`files, nodes`lockedBy, nodes`pendingLocks, nodes`canDoFirstWrite, nodes`refCount, nodes`lastRef
      ensures Valid() && Model() == Unlock(old(Model()), pathname, requestor, now).store
      ensures reply == Unlock(old(Model()), pathname, requestor, now).reply
      ensures (if newLockFd == 0 then [] else [newLockFd]) == Unlock(old(Model()), pathname, requestor, now).granted
    {
      hide Shape, FilesOk;
      StoredAreOk();
      UnlockKeeps(Model(), pathname, requestor, now);
      if pathname == [] || requestor <= 0 {
        return Failed(EInval), 0;
      }
      var fptr := FindFile(pathname);
      if fptr == null {
        return Failed(ENoEnt), 0;
      }
      HeadIsReal(files[IndexOf(files, pathname)]);
      var ok, newLock := UnlockNode(fptr, requestor, now, IndexOf(files, pathname));
      return if ok then Done else Failed(EAcces), newLock;
    }

    /** The part of `closeFileHandler` that follows the look-up. */
    method CloseNode(fptr: FileNode, requestor: Fd, now: int, ghost i: nat)
      requires Shape() && i < |nodes| && fptr == nodes[i]
      modifies this`files, nodes`openDescriptors, nodes`canDoFirstWrite, nodes`refCount, nodes`lastRef
      ensures Shape() && files == old(files)[i := Closed(old(files[i]), requestor, now)]
    {
      hide HoldsCode, Closed, Chained, Maps, DistinctPaths, IclHash.Table.Valid;
      Placed(i);
      fptr.Shut(requestor, now, files[i]);
      RepresentsAfterEdit(nodes, files, i, Closed(files[i], requestor, now));
      MapsAfterUpdate(dictStore.entries, files, nodes, files[i := Closed(files[i], requestor, now)]);
      files := files[i := Closed(files[i], requestor, now)];
    }

    /** `closeFileHandler` */
    method CloseFile(pathname: Path, requestor: Fd, now: int) returns (reply: Reply)
      requires Valid()
      modifies this`files, nodes`openDescriptors, nodes`canDoFirstWrite, nodes`refCount, nodes`lastRef
      ensures Valid() && Model() == Close(old(Model()), pathname, requestor, now).store
      ensures reply == Close(old(Model()), pathname, requestor, now).reply
    {
      hide Shape;
      CloseKeeps(Model(), pathname, requestor, now);
      if pathname == [] || requestor <= 0 {
        return Failed(EInval);
      }
      var fptr := FindFile(pathname);
      if fptr == null {
        return Failed(ENoEnt);
      }
      CloseNode(fptr, requestor, now, IndexOf(files, pathname));
      return Done;
    }

    /** The part of `readFileHandler` that follows the look-up. */
    method ReadNode(fptr: FileNode, now: int, beyond: Byte, ghost i: nat) returns (buf: array<Byte>)
      requires Shape() && i < |nodes| && fptr == nodes[i] && WellStored(files[i])
      modifies this`files, nodes`canDoFirstWrite, nodes`refCount, nodes`lastRef
      ensures Shape() && files == old(files)[i := old(files[i]).Touch(now).(firstWriter := 0)]
      ensures buf[..] == old(files[i]).bytes
    {
      hide HoldsCode, Chained, Maps, DistinctPaths, IclHash.Table.Valid;
      Placed(i);
      buf := fptr.Fetch(now, beyond, files[i]);
      RepresentsAfterEdit(nodes, files, i, files[i].Touch(now).(firstWriter := 0));
      MapsAfterUpdate(dictStore.entries, files, nodes, files[i := files[i].Touch(now).(firstWriter := 0)]);
      files := files[i := files[i].Touch(now).(firstWriter := 0)];
    }

    /** `readFileHandler` */
    method ReadFile(pathname: Path, requestor: Fd, now: int, beyond: Byte) returns (reply: Reply)
      requires Valid()
      modifies this`files, nodes`canDoFirstWrite, nodes`refCount, nodes`lastRef
      ensures Valid() && Model() == Read(old(Model()), pathname, requestor, now).store
      ensures reply == Read(old(Model()), pathname, requestor, now).reply
    {
      hide Shape, HoldsCode;
      ReadKeeps(Model(), pathname, requestor, now);
      if pathname == [] || requestor <= 0 {
        return Failed(EInval);
      }
      var fptr := FindFile(pathname);
      if fptr == null {
        return Failed(ENoEnt);
      }
      ghost var i := IndexOf(files, pathname);
      NodeStores(i);
      assert FileOk(files[i]);
      var ok := fptr.MayUse(requestor, files[i]);
      if !ok {
        return Failed(EAcces);
      }
      var buf := ReadNode(fptr, now, beyond, i);
      return Content(buf[..]);
    }

    /** `testFirstWrite` */
    method TestForFirstWrite(pathname: Path, requestor: Fd) returns (ret: bool)
      requires Valid()
      ensures Answer(ret) == TestFirstWrite(Model(), pathname, requestor).reply
    {
      if pathname == [] || requestor <= 0 {
        return false;
      }
      var fptr := FindFile(pathname);
      if fptr == null {
        return false;
      }
      assert fptr.Stores(files[IndexOf(files, pathname)]);
      return fptr.canDoFirstWrite == requestor;
    }

    /** `removeFileHandler` */
    method RemoveFile(pathname: Path, requestor: Fd) returns (reply: Reply, notifyList: seq<Fd>)
      requires Valid()
      modifies this`hPtr, this`tPtr, this`nodes, this`files, this`currFileNum, this`currStorageSize
      modifies nodes`nextPtr, nodes`prevPtr, nodes`openDescriptors
      modifies dictStore`nentries, dictStore`entries, dictStore`chains, dictStore.buckets, dictStore.repr`next
      ensures Valid() && Model() == Remove(old(Model()), pathname, requestor).store
      ensures reply == Remove(old(Model()), pathname, requestor).reply
      ensures notifyList == Remove(old(Model()), pathname, requestor).gone
    {
      RemoveStepKeeps(Model(), pathname, requestor);
      if pathname == [] || requestor <= 0 {
        return Failed(EInval), [];
      }
      var fptr := FindFile(pathname);
      if fptr == null {
        return Failed(ENoEnt), [];
      }
      ghost var i := IndexOf(files, pathname);
      assert fptr.Stores(files[i]);
      if fptr.lockedBy != requestor {
        return Failed(EAcces), [];
      }
      notifyList := DestroyFile(fptr, i);
      reply := Done;
    }

    /** `getVictim` followed by `destroyFile`. */
    method EvictVictim(spare: FileNode?, ghost path: Path, ghost v: nat) returns (victim: FileNode, notifyList: seq<Fd>)
      requires Shape() && v == Victim(files, replacementAlgo, path) < |nodes| == |files|
      requires forall i :: 0 <= i < |nodes| ==> (nodes[i] == spare <==> files[i].path == path)
      modifies this`hPtr, this`tPtr, this`nodes, this`files, this`currFileNum, this`currStorageSize, this`numVictims
      modifies nodes`nextPtr, nodes`prevPtr, nodes`openDescriptors
      modifies dictStore`nentries, dictStore`entries, dictStore`chains, dictStore.buckets, dictStore.repr`next
      ensures Shape() && Model() == EvictOne(old(Model()), path) && nodes == RemoveAt(old(nodes), v)
      ensures victim == old(nodes)[v] && victim.HasContentOf(old(files)[v]) && notifyList == old(files)[v].pending
      ensures dictStore.repr == old(dictStore.repr)
    {
      hide Shape, HoldsCode;
      victim := GetVictim(spare, path);
      notifyList := DestroyFile(victim, v);
    }

    /** The part of `openFileHandler` that makes room for one more file. */
    method MakeRoom(ghost v: nat) returns (notifyList: seq<Fd>)
      requires Shape() && v == Victim(files, replacementAlgo, []) < |nodes|
      requires forall k :: 0 <= k < |files| ==> files[k].path != []
      modifies this`hPtr, this`tPtr, this`nodes, this`files, this`currFileNum, this`currStorageSize, this`numVictims
      modifies nodes`nextPtr, nodes`prevPtr, nodes`openDescriptors, nodes`refCount
      modifies dictStore`nentries, dictStore`entries, dictStore`chains, dictStore.buckets, dictStore.repr`next
      ensures Shape() && nodes == RemoveAt(old(nodes), v) && notifyList == old(files)[v].pending
      ensures Model() == EvictOne(old(Model()), []).(files := ResetRefCounts(EvictOne(old(Model()), []).files))
      ensures dictStore.repr == old(dictStore.repr)
    {
      hide HoldsCode, Shape, Victim;
      SameCount();
      var victim;
      victim, notifyList := EvictVictim(null, [], v);
      ResetAllRefCounts();
    }

    /** Makes a node for a new file and adds it. */
    method AddNew(pathname: Path, lock: bool, requestor: Fd, now: int)
      requires Shape() && !Has(files, pathname)
      modifies this`hPtr, this`tPtr, this`nodes, this`files, this`currFileNum, this`currStorageSize
      modifies this`maxReachedFileNum, this`maxReachedStorageSize, nodes`nextPtr
      modifies dictStore`nentries, dictStore`entries, dictStore`chains, dictStore`repr, dictStore.buckets
      ensures Shape() && Model() == AddFile(old(Model()), NewFile(pathname, lock, requestor, now))
      ensures fresh(dictStore.repr - old(dictStore.repr))
      ensures |nodes| > 0 && nodes[..|nodes| - 1] == old(nodes) && fresh(nodes[|nodes| - 1])
    {
      hide HoldsCode, Shape;
      var fPtr := new FileNode(pathname, now);
      if lock {
        fPtr.lockedBy := requestor;
        fPtr.canDoFirstWrite := requestor;
      }
      fPtr.openDescriptors := fPtr.openDescriptors + [requestor];
      AddFileToStore(fPtr, NewFile(pathname, lock, requestor, now));
    }

    /** The part of `openFileHandler` that creates a file. */
    method CreateFile(pathname: Path, lock: bool, requestor: Fd, now: int, ghost v: nat) returns (notifyList: seq<Fd>)
      requires Shape() && !Has(files, pathname) && v == Victim(files, replacementAlgo, [])
      requires currFileNum == maxFileNum ==> v < |nodes|
      requires forall k :: 0 <= k < |files| ==> files[k].path != []
      modifies this`hPtr, this`tPtr, this`nodes, this`files, this`currFileNum, this`currStorageSize, this`numVictims
      modifies this`maxReachedFileNum, this`maxReachedStorageSize
      modifies nodes`nextPtr, nodes`prevPtr, nodes`openDescriptors, nodes`refCount
      modifies dictStore`nentries, dictStore`entries, dictStore`chains, dictStore`repr, dictStore.buckets,
        dictStore.repr`next
      ensures Shape() && Model() == Create(old(Model()), pathname, lock, requestor, now).store
      ensures notifyList == Create(old(Model()), pathname, lock, requestor, now).gone
      ensures fresh(dictStore.repr - old(dictStore.repr))
      ensures nodes != [] && fresh(nodes[|nodes| - 1])
      ensures KeptFrom(old(nodes), nodes[..|nodes| - 1])
    {
      hide Shape, Has, Victim;
      notifyList := [];
      SameCount();
      if currFileNum == maxFileNum {
        AbsentAfterRemoval(files, v, pathname);
        notifyList := MakeRoom(v);
      }
      AddNew(pathname, lock, requestor, now);
    }

    /** The part of `openFileHandler` that follows the look-up of a file that exists. */
    method OpenNode(fptr: FileNode, lock: bool, requestor: Fd, ghost i: nat) returns (ok: bool)
      requires Shape() && i < |nodes| && fptr == nodes[i]
      modifies this`files, nodes`lockedBy, nodes`openDescriptors
      ensures Shape() && files == old(files)[i := Opened(old(files[i]), lock, requestor)]
      ensures ok == !(lock && old(files[i]).lockedBy != 0) && (!ok ==> files == old(files))
    {
      hide HoldsCode, Opened, Chained, Maps, DistinctPaths, IclHash.Table.Valid;
      Placed(i);
      ok := fptr.Reopen(lock, requestor, files[i]);
      RepresentsAfterEdit(nodes, files, i, Opened(files[i], lock, requestor));
      MapsAfterUpdate(dictStore.entries, files, nodes, files[i := Opened(files[i], lock, requestor)]);
      files := files[i := Opened(files[i], lock, requestor)];
    }

    /** `openFileHandler` */
    method OpenFile(pathname: Path, create: bool, lock: bool, requestor: Fd, now: int)
      returns (reply: Reply, notifyList: seq<Fd>)
      requires Valid()
      modifies this`hPtr, this`tPtr, this`nodes, this`files, this`currFileNum, this`currStorageSize, this`numVictims
      modifies this`maxReachedFileNum, this`maxReachedStorageSize
      modifies nodes`nextPtr, nodes`prevPtr, nodes`lockedBy, nodes`openDescriptors, nodes`refCount
      modifies dictStore`nentries, dictStore`entries, dictStore`chains, dictStore`repr, dictStore.buckets,
        dictStore.repr`next
      ensures Valid() && Model() == Open(old(Model()), pathname, create, lock, requestor, now).store
      ensures reply == Open(old(Model()), pathname, create, lock, requestor, now).reply
      ensures notifyList == Open(old(Model()), pathname, create, lock, requestor, now).gone
      ensures fresh(dictStore.repr - old(dictStore.repr))
      ensures reply.Done? && create ==> nodes != [] && fresh(nodes[|nodes| - 1])
      ensures reply.Done? && create ==> KeptFrom(old(nodes), nodes[..|nodes| - 1])
      ensures !(reply.Done? && create) ==> nodes == old(nodes)
    {
      hide Shape, Inv, Victim, KeptFrom, EvictOne, Create;
      OpenKeeps(Model(), pathname, create, lock, requestor, now);
      if pathname == [] || requestor <= 0 {
        return Failed(EInval), [];
      }
      var fPtr := FindFile(pathname);
      ghost var i := IndexOf(files, pathname);
      var alreadyExists := fPtr != null;
      if alreadyExists == create {
        return Failed(if alreadyExists then EPerm else ENoEnt), [];
      }
      if !alreadyExists {
        AnyFileCanGo(Model());
        CreationIsDone(Model(), pathname, lock, requestor, now);
        notifyList := CreateFile(pathname, lock, requestor, now, Victim(files, replacementAlgo, []));
        return Done, notifyList;
      }
      var ok := OpenNode(fPtr, lock, requestor, i);
      return if ok then Done else Failed(EAcces), [];
    }

    /** One turn of the loop of `clientExitHandler`. */
    method AbandonOne(currPtr: FileNode, requestor: Fd, ghost k: nat, ghost after: seq<File>) returns (newLock: Fd)
      requires |nodes| == |files| && Distinct(nodes) && after == LeaveAll(files, requestor)
      requires k < |nodes| && currPtr == nodes[k]
      requires StoresRange(nodes, after, 0, k) && StoresRange(nodes, files, k, |nodes|)
      modifies currPtr`lockedBy, currPtr`pendingLocks, currPtr`openDescriptors
      ensures StoresRange(nodes, after, 0, k + 1) && StoresRange(nodes, files, k + 1, |nodes|)
      ensures newLock == if files[k].lockedBy == requestor && files[k].pending != [] then files[k].pending[0] else 0
    {
      assert currPtr.Stores(files[k]);
      newLock := currPtr.Abandon(requestor, files[k]);
      RangeKept(nodes, after, 0, k);
      RangeKept(nodes, files, k + 1, |nodes|);
    }

    /** The loop of `clientExitHandler`. */
    method AbandonAll(requestor: Fd) returns (notifyList: seq<Fd>)
      requires Linked() && Represents(nodes, files) && Distinct(nodes) && RealWaiters(files)
      modifies this`files, nodes`lockedBy, nodes`pendingLocks, nodes`openDescriptors
      ensures Linked() && Represents(nodes, files)
      ensures files == LeaveAll(old(files), requestor) && notifyList == Heirs(old(files), requestor)
    {
      hide HoldsCode, Leave, Heirs;
      ghost var k, after := 0, LeaveAll(files, requestor);
      var currPtr := hPtr;
      notifyList := [];
      NoHeirs(requestor);
      while currPtr != null
        invariant k <= |nodes| && currPtr == NodeAt(nodes, k)
        invariant StoresRange(nodes, after, 0, k) && StoresRange(nodes, files, k, |nodes|)
        invariant notifyList == Heirs(files[..k], requestor)
        decreases |nodes| - k
        modifies nodes`lockedBy, nodes`pendingLocks, nodes`openDescriptors
      {
        var newLock := AbandonOne(currPtr, requestor, k, after);
        HeirsOfMore(files, requestor, k);
        assert files[k].pending != [] ==> files[k].pending[0] in files[k].pending;
        if newLock > 0 {
          notifyList := notifyList + [newLock];
        }
        currPtr, k := currPtr.nextPtr, k + 1;
      }
      assert files[..k] == files;
      files := after;
    }

    /** The part of `clientExitHandler` that follows the check of its argument. */
    method LeaveStore(requestor: Fd) returns (notifyList: seq<Fd>)
      requires Shape() && RealWaiters(files)
      modifies this`files, nodes`lockedBy, nodes`pendingLocks, nodes`openDescriptors
      ensures Shape() && files == LeaveAll(old(files), requestor) && notifyList == Heirs(old(files), requestor)
    {
      hide HoldsCode, Leave, RealWaiters;
      StoredApart(nodes, files);
      MapsAfterLeave(dictStore.entries, files, nodes, requestor);
      notifyList := AbandonAll(requestor);
    }

    /** `clientExitHandler`; `notifyList` are the clients that have got a lock. */
    method ClientExit(requestor: Fd) returns (reply: Reply, notifyList: seq<Fd>)
      requires Valid()
      modifies this`files, nodes`lockedBy, nodes`pendingLocks, nodes`openDescriptors
      ensures Valid() && Model() == Exit(old(Model()), requestor).store
      ensures reply == Exit(old(Model()), requestor).reply && notifyList == Exit(old(Model()), requestor).granted
    {
      if requestor <= 0 {
        return Failed(EInval), [];
      }
      ExitKeeps(Model(), requestor);
      assert forall k :: 0 <= k < |files| ==> FileOk(files[k]);
      notifyList := LeaveStore(requestor);
      reply := Done;
    }

    /** `UPDATE_CACHE_BITS` on a listed file. */
    method TouchNode(fptr: FileNode, now: int, ghost i: nat)
      requires Shape() && i < |nodes| && fptr == nodes[i]
      modifies this`files, nodes`refCount, nodes`lastRef
      ensures Shape() && files == old(files)[i := old(files[i]).Touch(now)]
    {
      hide HoldsCode, Chained, Maps, DistinctPaths, IclHash.Table.Valid;
      Placed(i);
      fptr.Touch(now);
      RepresentsAfterEdit(nodes, files, i, files[i].Touch(now));
      MapsAfterUpdate(dictStore.entries, files, nodes, files[i := files[i].Touch(now)]);
      files := files[i := files[i].Touch(now)];
    }

    /** `victim->nextPtr = *evictedList` */
    method Push(victim: FileNode, evictedList: FileNode?)
      requires Shape() && victim !in nodes
      modifies victim`nextPtr
      ensures Shape() && victim.nextPtr == evictedList
    {
      victim.nextPtr := evictedList;
      assert forall k :: 0 <= k < |nodes| ==> nodes[k] != victim;
    }

    /** One turn of the eviction loop. */
    method EvictOneMore(fptr: FileNode, evictedList: FileNode?, ghost path: Path, ghost v: nat,
                        ghost evicted: seq<FileNode>, ghost victims: seq<File>)
      returns (victim: FileNode, tmpList: seq<Fd>)
      requires Shape() && v == Victim(files, replacementAlgo, path) < |nodes| == |files| && Distinct(nodes)
      requires forall i :: 0 <= i < |nodes| ==> (nodes[i] == fptr <==> files[i].path == path)
      requires Evicted(evictedList, evicted, victims) && Apart(evicted, nodes)
      modifies this`hPtr, this`tPtr, this`nodes, this`files, this`currFileNum, this`currStorageSize, this`numVictims
      modifies nodes`nextPtr, nodes`prevPtr, nodes`openDescriptors
      modifies dictStore`nentries, dictStore`entries, dictStore`chains, dictStore.buckets, dictStore.repr`next
      ensures Shape() && Model() == EvictOne(old(Model()), path) && nodes == RemoveAt(old(nodes), v)
      ensures victim == old(nodes)[v] && tmpList == old(files)[v].pending
      ensures Evicted(victim, [victim] + evicted, victims + [old(files)[v]]) && dictStore.repr == old(dictStore.repr)
    {
      hide HoldsCode, Shape;
      victim, tmpList := EvictVictim(fptr, path, v);
      Push(victim, evictedList);
      EvictedMore(evicted, victims, victim, old(files)[v]);
    }

    /** What the eviction loop has reached: `victims` are gone, and the rest of `final` remains to be done. */
    ghost predicate Evicting(path: Path, growth: int, i: nat, final: (Store, seq<File>), victims: seq<File>,
                             notifyList: seq<Fd>, evictedList: FileNode?, evicted: seq<FileNode>)
      reads this, nodes, evicted, dictStore, dictStore.buckets, dictStore.repr
    {
      && Shape() && Loose(Model()) && Spares(Model(), path, i, growth)
      && Reaches(Model(), path, growth, victims, final)
      && notifyList == Waiters(victims) && Evicted(evictedList, evicted, victims) && Apart(evicted, nodes)
    }

    /** One turn of the eviction loop, with what it says about the whole. */
    method EvictTurn(fptr: FileNode, notifyList: seq<Fd>, evictedList: FileNode?, ghost path: Path, ghost growth: int,
                     ghost i: nat, ghost final: (Store, seq<File>), ghost victims: seq<File>,
                     ghost evicted: seq<FileNode>)
      returns (notifyList': seq<Fd>, victim: FileNode, ghost v: nat)
      requires Evicting(path, growth, i, final, victims, notifyList, evictedList, evicted)
      requires i < |nodes| && fptr == nodes[i]
      requires currStorageSize + growth > maxStorageSize
      modifies this`hPtr, this`tPtr, this`nodes, this`files, this`currFileNum, this`currStorageSize, this`numVictims
      modifies nodes`nextPtr, nodes`prevPtr, nodes`openDescriptors
      modifies dictStore`nentries, dictStore`entries, dictStore`chains, dictStore.buckets, dictStore.repr`next
      ensures v < |old(nodes)| == |old(files)| && |nodes| == |old(nodes)| - 1 && Shifted(i, v) < |nodes| == |files|
      ensures nodes[Shifted(i, v)] == fptr && i < |old(files)| && files[Shifted(i, v)] == old(files)[i]
      ensures Evicting(path, growth, Shifted(i, v), final,
                       victims + [old(files)[v]], notifyList', victim, [victim] + evicted)
      ensures forall k :: 0 <= k < |nodes| ==> nodes[k] in old(nodes)
      ensures dictStore.repr == old(dictStore.repr)
    {
      hide Shape, EvictedChain, EvictUntilFits, Waiters, Loose;
      v := Victim(files, replacementAlgo, path);
      Turn(Model(), path, i, growth, v);
      WhichNode(i);
      ReachesAfterOne(Model(), path, growth, victims, final);
      WaitersOfMore(victims, files[v]);
      ApartAfterOne(evicted, nodes, v);
      var tmpList;
      victim, tmpList := EvictOneMore(fptr, evictedList, path, v, evicted, victims);
      notifyList' := notifyList + tmpList;
    }

    lemma EvictingAtFirst(path: Path, growth: int, i: nat)
      requires Shape() && Loose(Model()) && Spares(Model(), path, i, growth)
      ensures i < |files| == |nodes|
      ensures Evicting(path, growth, i, EvictUntilFits(Model(), path, growth), [], [], null, [])
    {
    }

    lemma EvictingAtLast(path: Path, growth: int, i: nat, final: (Store, seq<File>), victims: seq<File>,
                         notifyList: seq<Fd>, evictedList: FileNode?, evicted: seq<FileNode>)
      requires Evicting(path, growth, i, final, victims, notifyList, evictedList, evicted)
      requires currStorageSize + growth <= maxStorageSize
      ensures Shape() && Model() == final.0 && notifyList == Waiters(final.1) && Evicted(evictedList, evicted, final.1)
      ensures Apart(evicted, nodes) && i < |nodes| && files[i].path == path
    {
      assert victims + [] == victims;
    }

    /** The eviction loop of `writeToFileHandler`. */
    method EvictToFit(fptr: FileNode, newSize: nat, ghost path: Path, ghost i0: nat, ghost growth: int)
      returns (notifyList: seq<Fd>, evictedList: FileNode?, ghost evicted: seq<FileNode>, ghost i: nat)
      requires Shape() && Loose(Model()) && Spares(Model(), path, i0, growth) && fptr == nodes[i0]
      requires growth == newSize - fptr.contentSize
      modifies this`hPtr, this`tPtr, this`nodes, this`files, this`currFileNum, this`currStorageSize, this`numVictims
      modifies nodes`nextPtr, nodes`prevPtr, nodes`openDescriptors
      modifies dictStore`nentries, dictStore`entries, dictStore`chains, dictStore.buckets, dictStore.repr`next
      ensures Shape() && Model() == EvictUntilFits(old(Model()), path, growth).0
      ensures i < |nodes| && fptr == nodes[i] && files[i] == old(files)[i0]
      ensures notifyList == Waiters(EvictUntilFits(old(Model()), path, growth).1)
      ensures Evicted(evictedList, evicted, EvictUntilFits(old(Model()), path, growth).1) && Apart(evicted, nodes)
      ensures forall k :: 0 <= k < |nodes| ==> nodes[k] in old(nodes)
      ensures dictStore.repr == old(dictStore.repr)
    {
      hide Evicting;
      ghost var final, victims: seq<File> := EvictUntilFits(Model(), path, growth), [];
      EvictingAtFirst(path, growth, i0);
      i, notifyList, evictedList, evicted := i0, [], null, [];
      while currStorageSize - fptr.contentSize + newSize > maxStorageSize
        invariant Evicting(path, growth, i, final, victims, notifyList, evictedList, evicted)
        invariant i < |nodes| == |files| && fptr == nodes[i] && files[i] == old(files)[i0]
        invariant forall k :: 0 <= k < |nodes| ==> nodes[k] in old(nodes)
        invariant dictStore.repr == old(dictStore.repr)
        decreases |nodes|
      {
        ghost var v;
        ghost var f0 := files;
        notifyList, evictedList, v :=
          EvictTurn(fptr, notifyList, evictedList, path, growth, i, final, victims, evicted);
        victims, evicted, i := victims + [f0[v]], [evictedList] + evicted, Shifted(i, v);
      }
      EvictingAtLast(path, growth, i, final, victims, notifyList, evictedList, evicted);
    }

    /** The replacement of the content of a listed file. */
    method PutNode(fptr: FileNode, newContent: seq<Byte>, newSize: nat, added: nat, ghost i: nat, ghost f: File,
                   ghost data: seq<Byte>)
      requires Shape() && i < |nodes| && fptr == nodes[i] && files[i] == f.(refCount := 0)
      requires HoldsCode(newContent, newSize, f.bytes + data) && added == |data|
      modifies this`files, nodes`content, nodes`contentSize, nodes`uncompressedSize, nodes`canDoFirstWrite
      ensures Shape() && files == old(files)[i := Rewritten(f, data, newSize)]
    {
      hide HoldsCode, Chained, Maps, DistinctPaths, IclHash.Table.Valid;
      Placed(i);
      fptr.Put(newContent, newSize, added, f, data);
      RepresentsAfterEdit(nodes, files, i, Rewritten(f, data, newSize));
      MapsAfterUpdate(dictStore.entries, files, nodes, files[i := Rewritten(f, data, newSize)]);
      files := files[i := Rewritten(f, data, newSize)];
    }

    lemma PlaceOf(i: nat)
      requires Shape() && i < |nodes|
      ensures |nodes| == |files| && IndexOf(ResetRefCounts(files), files[i].path) == i
    {
      IndexIsUnique(ResetRefCounts(files), i);
    }

    /** The end of `writeToFileHandler`: counts are reset, sizes accounted for and the content replaced. */
    method FinishWrite(fptr: FileNode, newContent: seq<Byte>, newSize: nat, added: nat, ghost i: nat, ghost f: File,
                   ghost data: seq<Byte>)
      requires Shape() && i < |nodes| && fptr == nodes[i] && files[i] == f && fptr.contentSize == f.contentSize
      requires HoldsCode(newContent, newSize, f.bytes + data) && added == |data|
      modifies this`files, this`currStorageSize, this`maxReachedStorageSize
      modifies nodes`refCount, nodes`content, nodes`contentSize, nodes`uncompressedSize, nodes`canDoFirstWrite
      ensures Shape() && Model() == Replace(old(Model()), f.path, f, data, newSize)
    {
      hide HoldsCode, Shape;
      PlaceOf(i);
      ResetAllRefCounts();
      currStorageSize := currStorageSize - fptr.contentSize + newSize;
      maxReachedStorageSize := Max(maxReachedStorageSize, currStorageSize);
      PutNode(fptr, newContent, newSize, added, i, f, data);
    }

    /** The part of `writeToFileHandler` that cannot fail. */
    method WriteNode(fptr: FileNode, newContent: seq<Byte>, newSize: nat, added: nat, ghost i: nat, ghost f: File,
                   ghost data: seq<Byte>)
      returns (notifyList: seq<Fd>, evictedList: FileNode?, ghost evicted: seq<FileNode>)
      requires Shape() && Loose(Model()) && Spares(Model(), f.path, i, newSize - f.contentSize)
      requires fptr == nodes[i] && files[i] == f && fptr.contentSize == f.contentSize
      requires HoldsCode(newContent, newSize, f.bytes + data) && added == |data|
      modifies this`hPtr, this`tPtr, this`nodes, this`files, this`currFileNum, this`currStorageSize, this`numVictims
      modifies this`maxReachedStorageSize
      modifies nodes`nextPtr, nodes`prevPtr, nodes`openDescriptors
      modifies nodes`refCount, nodes`content, nodes`contentSize, nodes`uncompressedSize, nodes`canDoFirstWrite
      modifies dictStore`nentries, dictStore`entries, dictStore`chains, dictStore.buckets, dictStore.repr`next
      ensures Shape() && Model() == WriteFitting(old(Model()), f.path, f, data, newSize).store
      ensures notifyList == WriteFitting(old(Model()), f.path, f, data, newSize).gone
      ensures Evicted(evictedList, evicted, WriteFitting(old(Model()), f.path, f, data, newSize).destroyed)
      ensures Apart(evicted, nodes)
    {
      hide HoldsCode, Shape, EvictedChain, Replace, EvictUntilFits, Loose, Spares;
      ghost var j;
      notifyList, evictedList, evicted, j := EvictToFit(fptr, newSize, f.path, i, newSize - f.contentSize);
      label L:
      FinishWrite(fptr, newContent, newSize, added, j, f, data);
      EvictedKept@L(evicted, WriteFitting(old(Model()), f.path, f, data, newSize).destroyed);
    }

    lemma NothingEvictedYet()
      ensures Evicted(null, [], []) && Apart([], nodes)
    {
    }

    /** The part of `writeToFileHandler` that follows the check of access. */
    method WriteAccessible(fptr: FileNode, newContent: seq<Byte>, now: int, beyond: Byte, ghost i: nat)
      returns (reply: Reply, notifyList: seq<Fd>, evictedList: FileNode?, ghost evicted: seq<FileNode>)
      requires Valid() && i < |nodes| && fptr == nodes[i]
      modifies this`hPtr, this`tPtr, this`nodes, this`files, this`currFileNum, this`currStorageSize, this`numVictims
      modifies this`maxReachedStorageSize
      modifies nodes`nextPtr, nodes`prevPtr, nodes`openDescriptors, nodes`lastRef
      modifies nodes`refCount, nodes`content, nodes`contentSize, nodes`uncompressedSize, nodes`canDoFirstWrite
      modifies dictStore`nentries, dictStore`entries, dictStore`chains, dictStore.buckets, dictStore.repr`next
      ensures Shape() && Model() == AllowedWrite(old(Model()), i, newContent, now).store
      ensures reply == AllowedWrite(old(Model()), i, newContent, now).reply
      ensures notifyList == AllowedWrite(old(Model()), i, newContent, now).gone
      ensures Evicted(evictedList, evicted, AllowedWrite(old(Model()), i, newContent, now).destroyed)
      ensures Apart(evicted, nodes)
    {
      hide HoldsCode, Replace, EvictUntilFits, Shape, FilesOk, EvictedChain;
      notifyList, evictedList, evicted := [], null, [];
      NothingEvictedYet();
      NodeStores(i);
      TouchedKeepsInv(Model(), i, now);
      TouchNode(fptr, now, i);
      NodeStores(i);
      var code, newSize := fptr.Recode(newContent, beyond, files[i]);
      if newSize > maxStorageSize {
        reply := Failed(E2Big);
        return;
      }
      notifyList, evictedList, evicted := WriteNode(fptr, code, newSize, |newContent|, i, files[i], newContent);
      reply := Done;
    }

    /**
      `writeToFileHandler`. The evicted files are handed over in a list of their own, the latest victim first,
      with their content as it was.
    */
    method WriteToFile(pathname: Path, newContent: seq<Byte>, requestor: Fd, now: int, beyond: Byte)
      returns (reply: Reply, notifyList: seq<Fd>, evictedList: FileNode?, ghost evicted: seq<FileNode>)
      requires Valid()
      modifies this`hPtr, this`tPtr, this`nodes, this`files, this`currFileNum, this`currStorageSize, this`numVictims
      modifies this`maxReachedStorageSize
      modifies nodes`nextPtr, nodes`prevPtr, nodes`openDescriptors, nodes`lastRef
      modifies nodes`refCount, nodes`content, nodes`contentSize, nodes`uncompressedSize, nodes`canDoFirstWrite
      modifies dictStore`nentries, dictStore`entries, dictStore`chains, dictStore.buckets, dictStore.repr`next
      ensures Valid() && Model() == Write(old(Model()), pathname, newContent, requestor, now).store
      ensures reply == Write(old(Model()), pathname, newContent, requestor, now).reply
      ensures notifyList == Write(old(Model()), pathname, newContent, requestor, now).gone
      ensures Evicted(evictedList, evicted, Write(old(Model()), pathname, newContent, requestor, now).destroyed)
      ensures Apart(evicted, nodes)
    {
      hide HoldsCode, EvictUntilFits, WriteFitting;
      WriteKeeps(Model(), pathname, newContent, requestor, now);
      notifyList, evictedList, evicted := [], null, [];
      if pathname == [] || requestor <= 0 {
        reply := Failed(EInval);
        return;
      }
      var fptr := FindFile(pathname);
      if fptr == null {
        reply := Failed(ENoEnt);
        return;
      }
      ghost var i := IndexOf(files, pathname);
      assert fptr.Stores(files[i]);
      var ok := fptr.MayUse(requestor, files[i]);
      if !ok {
        reply := Failed(EAcces);
        return;
      }
      reply, notifyList, evictedList, evicted := WriteAccessible(fptr, newContent, now, beyond, i);
    }

    /** One turn of the loop of `readNFilesHandler`: the frame of one file goes to the end of the buffer. */
    method AddFrame(ret: array<Byte>, retMaxSize: nat, retCurrSize: nat, currPtr: FileNode, beyond: Byte, ghost f: File)
      returns (ret': array<Byte>, retMaxSize': nat, retNewSize: nat)
      requires currPtr.Stores(f) && WellStored(f) && retCurrSize <= ret.Length && retMaxSize <= ret.Length
      modifies ret
      ensures ret' == ret || fresh(ret')
      ensures retNewSize <= ret'.Length && retMaxSize' <= ret'.Length
      ensures ret'[..retNewSize] == old(ret[..retCurrSize]) + Wire.Frame((f.path, f.bytes))
    {
      hide Wire.Padded, Wire.Pow10, Wire.Frame, HoldsCode;
      retNewSize := retCurrSize + currPtr.uncompressedSize + |currPtr.pathname| + 2 * Wire.METADATA_SIZE;
      ret', retMaxSize' := Grow(ret, retMaxSize, retCurrSize, retNewSize);
      ghost var before := ret'[..retCurrSize];
      var header := Wire.Padded(|currPtr.pathname|, Wire.METADATA_SIZE) + currPtr.pathname
                    + Wire.Padded(currPtr.uncompressedSize, Wire.METADATA_SIZE);
      CopyInto(ret', retCurrSize, header);
      var uncompressedContent := currPtr.Decoded(beyond, f);
      CopyInto(ret', retNewSize - currPtr.uncompressedSize, uncompressedContent[..]);
      FrameInParts(before, f.path, f.bytes);
    }

    /**
      `readNFilesHandler`: the frames of the first files of the list, all of them unless a positive limit is
      smaller.
    */
    method ReadNFiles(upperLimit: int, beyond: Byte) returns (buf: array<Byte>, size: nat, readCount: nat)
      requires Valid()
      ensures readCount == ReadCount(upperLimit, |files|) && size <= buf.Length
      ensures buf[..size] == Wire.Frames(ReadN(Model(), upperLimit).reply.files)
    {
      hide HoldsCode, Wire.Frame, Wire.Frames, Shape, FilesOk, DistinctPaths, QueueOk, FileNode.Stores;
      StoredAreOk();
      SameCount();
      NoFrames();
      ghost var all := Contents(files);
      buf := new Byte[INITIALBUFSIZ](_ => 0);
      var retMaxSize: nat := INITIALBUFSIZ;
      size, readCount := 0, 0;
      var currPtr := hPtr;
      while currPtr != null && (readCount != upperLimit || upperLimit <= 0)
        invariant readCount <= |nodes| && currPtr == NodeAt(nodes, readCount) && fresh(buf)
        invariant 0 < upperLimit ==> readCount <= upperLimit
        invariant size <= buf.Length && retMaxSize <= buf.Length && buf[..size] == Wire.Frames(all[..readCount])
        decreases |nodes| - readCount
      {
        NodeStores(readCount);
        NextOf(readCount);
        assert FileOk(files[readCount]);
        buf, retMaxSize, size := AddFrame(buf, retMaxSize, size, currPtr, beyond, files[readCount]);
        FramesOfLast(all, readCount);
        currPtr, readCount := currPtr.nextPtr, readCount + 1;
      }
      ContentsOfPrefix(files, readCount);
    }
  }
}
