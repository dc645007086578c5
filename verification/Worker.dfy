/** One turn of `_startWorker` in src/server.c: read a request, run its handler, answer, notify, report. */
module Worker {
  import opened Prelude
  import RunLength
  import opened StoreModel
  import opened StoreInvariant
  import opened Eviction
  import opened HandlerLaws
  import opened FilesystemApi
  import opened Sockets
  import Wire

  // ---------------------------------------------------------------- what a request amounts to

  const O_CREATE: nat := 1
  const O_LOCK: nat := 2

  /** `IS_SET` for a flag that is a power of two. */
  predicate IsSet(flags: nat, flag: nat)
    requires flag > 0
  {
    flags / flag % 2 == 1
  }

  /** The handler calls a request leads to, seen as one step: a first write is tested before it is done. */
  ghost function Handled(s: Store, m: Wire.Message, fd: Fd, now: int): Result {
    match m
    case ReadNFiles(limit) => ReadN(s, limit)
    case OpenFile(path, flags) => Open(s, path, IsSet(flags, O_CREATE), IsSet(flags, O_LOCK), fd, now)
    case ReadFile(path) => Read(s, path, fd, now)
    case WriteFile(path, data) =>
      if TestFirstWrite(s, path, fd).reply == Answer(true) then Write(s, path, data, fd, now) else Fail(s, EAcces)
    case AppendToFile(path, data) => Write(s, path, data, fd, now)
    case LockFile(path) => Lock(s, path, fd, now)
    case UnlockFile(path) => Unlock(s, path, fd, now)
    case CloseFile(path) => Close(s, path, fd, now)
    case RemoveFile(path) => Remove(s, path, fd)
  }

  /** `HANDLE_REQ_ERROR` */
  function CodeOf(e: Error): (c: nat)
    ensures Wire.OK < c < 8
  {
    match e
    case ENoEnt => Wire.FILE_NOT_FOUND
    case EAcces => Wire.FORBIDDEN
    case EPerm => Wire.ALREADY_EXISTS
    case E2Big => Wire.FILE_TOO_BIG
    case EInval => Wire.BAD_REQUEST
  }

  /** The victims of a write are sent back latest first. */
  function Reversed<T>(xs: seq<T>): (r: seq<T>)
    ensures |r| == |xs| && forall k :: 0 <= k < |r| ==> r[k] == xs[|xs| - 1 - k]
  {
    if xs == [] then [] else Reversed(xs[1..]) + [xs[0]]
  }

  /** The response to a request, given what its handler did. A client that has to wait gets none yet. */
  function ResponseTo(m: Wire.Message, r: Result): Wire.Response {
    match r.reply
    case Failed(e) => Wire.Refused(CodeOf(e))
    case Content(bytes) => Wire.WithContent(bytes)
    case Listing(files) => Wire.WithFiles(files)
    case _ => if m.WriteFile? || m.AppendToFile? then Wire.WithFiles(Contents(Reversed(r.destroyed))) else Wire.Accepted
  }

  /** What goes to other clients: who has lost the file they waited for, and who has got its lock. */
  function Notices(fds: seq<Fd>, code: nat): (r: seq<(Fd, nat)>)
    ensures |r| == |fds| && forall k :: 0 <= k < |fds| ==> r[k] == (fds[k], code)
  {
    seq(|fds|, k requires 0 <= k < |fds| => (fds[k], code))
  }

  function Told(r: Result): seq<(Fd, nat)> {
    Notices(r.gone, Wire.FILE_NOT_FOUND) + Notices(r.granted, Wire.OK)
  }

  /** The descriptors a worker reports to the manager: those it has answered. */
  function Reported(r: Result, fd: Fd): seq<Fd> {
    r.gone + r.granted + if r.reply.Waiting? then [] else [fd]
  }

  // ---------------------------------------------------------------- responses

  method SendResponseCode(sock: Socket, code: nat)
    requires code < 8
    modifies sock`outgoing
    ensures sock.outgoing == old(sock.outgoing) + [Wire.DigitOf(code)]
  {
    sock.Writen([Wire.DigitOf(code)]);
  }

  /** `NOTIFY_PENDING_CLIENTS` */
  method NotifyPendingClients(notifyList: seq<Fd>, notifyCode: nat) returns (notices: seq<(Fd, nat)>, pipe: seq<Fd>)
    ensures notices == Notices(notifyList, notifyCode) && pipe == notifyList
  {
    notices, pipe := [], [];
    for k := 0 to |notifyList|
      invariant notices == Notices(notifyList[..k], notifyCode) && pipe == notifyList[..k]
    {
      notices, pipe := notices + [(notifyList[k], notifyCode)], pipe + [notifyList[k]];
    }
    assert notifyList[..|notifyList|] == notifyList;
  }

  ghost predicate AllStored(files: seq<File>) {
    forall k {:trigger files[k]} :: 0 <= k < |files| ==> WellStored(files[k])
  }

  /** `SEND_EVICTED_FILE` for every evicted file, then the terminator. */
  method SendEvicted(sock: Socket, evictedList: FileNode?, beyond: Byte,
                     ghost evicted: seq<FileNode>, ghost victims: seq<File>)
    requires Evicted(evictedList, evicted, victims)
    requires AllStored(victims)
    modifies sock`outgoing
    ensures sock.outgoing == old(sock.outgoing) + Wire.Listing(Contents(Reversed(victims)))
  {
    hide HoldsCode, Wire.Frame;
    ghost var all, k := Contents(Reversed(victims)), 0;
    ghost var before := sock.outgoing;
    var curr := evictedList;
    assert all[..0] == [] && before + [] == before;
    while curr != null
      invariant k <= |evicted| && curr == NodeAt(evicted, k)
      invariant sock.outgoing == before + Wire.Frames(all[..k])
      decreases |evicted| - k
    {
      assert Kept(evicted, victims, k) && evicted[k].nextPtr == NodeAt(evicted, k + 1);
      SendEvictedFile(sock, curr, beyond, Reversed(victims)[k]);
      FramesOfLast(all, k);
      ConcatAssociates(before, Wire.Frames(all[..k]), Wire.Frame(all[k]));
      curr, k := curr.nextPtr, k + 1;
    }
    assert all[..k] == all;
    sock.Writen(Wire.Terminator());
    ConcatAssociates(before, Wire.Frames(all), Wire.Terminator());
  }

  method SendEvictedFile(sock: Socket, file: FileNode, beyond: Byte, ghost f: File)
    requires file.HasContentOf(f) && WellStored(f)
    modifies sock`outgoing
    ensures sock.outgoing == old(sock.outgoing) + Wire.Frame((f.path, f.bytes))
  {
    var originalContent := file.Decoded(beyond, f);
    sock.Writen(Wire.Segment(file.pathname) + Wire.Segment(originalContent[..]));
  }

  // ---------------------------------------------------------------- one request

  lemma VictimsAreStored(s: Store, path: Path, growth: int, k: nat)
    requires FilesOk(s.files) && k < |EvictUntilFits(s, path, growth).1|
    ensures WellStored(EvictUntilFits(s, path, growth).1[k])
  {
    LoopSplits(s, path, growth);
    var f := EvictUntilFits(s, path, growth).1[k];
    assert f in s.files;
    var i :| 0 <= i < |s.files| && s.files[i] == f;
    assert FileOk(s.files[i]);
  }

  lemma VictimsOfWrite(s: Store, i: nat, data: seq<Byte>, now: int)
    requires Inv(s) && i < |s.files|
    ensures AllStored(AllowedWrite(s, i, data, now).destroyed)
  {
    hide EvictUntilFits, RunLength.Encode, WellStored;
    TouchedKeepsInv(s, i, now);
    var f := s.files[i].Touch(now);
    var touched, size := s.(files := s.files[i := f]), |RunLength.Encode(f.bytes + data)|;
    var victims := EvictUntilFits(touched, f.path, size - f.contentSize).1;
    forall k | 0 <= k < |victims| ensures WellStored(victims[k]) {
      VictimsAreStored(touched, f.path, size - f.contentSize, k);
    }
  }

  /** Evicted files are sent back with the content they had. */
  lemma DestroyedAreStored(s: Store, path: Path, data: seq<Byte>, fd: Fd, now: int)
    requires Inv(s)
    ensures AllStored(Write(s, path, data, fd, now).destroyed)
  {
    hide WriteFitting, WellStored, Inv;
    if Has(s.files, path) {
      VictimsOfWrite(s, IndexOf(s.files, path), data, now);
    }
  }

  /** The bytes sent, the notices and the reports are those of the result `r` of request `m`. */
  ghost predicate ServedAs(m: Wire.Message, r: Result, fd: Fd, sent: seq<Byte>, notices: seq<(Fd, nat)>,
                           pipe: seq<Fd>) {
    && sent == (if r.reply.Waiting? then [] else Wire.Sent(ResponseTo(m, r)))
    && notices == Told(r) && pipe == Reported(r, fd)
  }

  /** An open either fails and tells nobody, or is done. */
  lemma OpenOutcome(s: Store, path: Path, create: bool, lock: bool, fd: Fd, now: int)
    ensures var r := Open(s, path, create, lock, fd, now);
      r.granted == [] && (r.reply.Failed? ==> r.gone == []) && (r.reply.Failed? || r.reply.Done?)
  {
  }

  method ServeOpen(sock: Socket, store: CacheStorage, path: Path, flags: nat, fd: Fd, now: int,
                   ghost m: Wire.Message, ghost r: Result)
    returns (notices: seq<(Fd, nat)>, pipe: seq<Fd>)
    requires store.Valid() && m == Wire.OpenFile(path, flags)
    requires r == Open(store.Model(), path, IsSet(flags, O_CREATE), IsSet(flags, O_LOCK), fd, now)
    modifies sock`outgoing, store, store.nodes, store.dictStore, store.dictStore.buckets, store.dictStore.repr
    ensures store.Valid() && store.Model() == r.store
    ensures old(sock.outgoing) <= sock.outgoing
    ensures ServedAs(m, r, fd, sock.outgoing[|old(sock.outgoing)|..], notices, pipe)
  {
    hide Open, CacheStorage.Shape, Inv;
    OpenOutcome(store.Model(), path, IsSet(flags, O_CREATE), IsSet(flags, O_LOCK), fd, now);
    var reply, notifyList := store.OpenFile(path, IsSet(flags, O_CREATE), IsSet(flags, O_LOCK), fd, now);
    notices, pipe := [], [];
    if reply.Failed? {
      SendResponseCode(sock, CodeOf(reply.error));
    } else {
      SendResponseCode(sock, Wire.OK);
      notices, pipe := NotifyPendingClients(notifyList, Wire.FILE_NOT_FOUND);
    }
    pipe := pipe + [fd];
  }

  lemma WriteOutcome(s: Store, path: Path, data: seq<Byte>, fd: Fd, now: int)
    ensures var r := Write(s, path, data, fd, now);
      r.granted == [] && (r.reply.Failed? ==> r.gone == []) && (r.reply.Failed? || r.reply.Done?)
  {
  }

  /** The part of APPEND_TO_FILE, and of an allowed WRITE_FILE, that follows the reading of the data. */
  method ServeWrite(sock: Socket, store: CacheStorage, path: Path, data: seq<Byte>, fd: Fd, now: int, beyond: Byte,
                    ghost m: Wire.Message, ghost r: Result)
    returns (notices: seq<(Fd, nat)>, pipe: seq<Fd>)
    requires store.Valid() && (m == Wire.AppendToFile(path, data) || m == Wire.WriteFile(path, data))
    requires r == Write(store.Model(), path, data, fd, now)
    modifies sock`outgoing, store, store.nodes, store.dictStore, store.dictStore.buckets, store.dictStore.repr
    ensures store.Valid() && store.Model() == r.store
    ensures old(sock.outgoing) <= sock.outgoing
    ensures ServedAs(m, r, fd, sock.outgoing[|old(sock.outgoing)|..], notices, pipe)
  {
    hide Write, CacheStorage.Shape, Inv, EvictedChain, AllStored, Wire.Listing;
    WriteOutcome(store.Model(), path, data, fd, now);
    DestroyedAreStored(store.Model(), path, data, fd, now);
    ghost var evicted;
    var reply, notifyList, evictedList;
    reply, notifyList, evictedList, evicted := store.WriteToFile(path, data, fd, now, beyond);
    notices, pipe := [], [];
    if reply.Failed? {
      SendResponseCode(sock, CodeOf(reply.error));
    } else {
      SendResponseCode(sock, Wire.OK);
      notices, pipe := NotifyPendingClients(notifyList, Wire.FILE_NOT_FOUND);
      SendEvicted(sock, evictedList, beyond, evicted, r.destroyed);
    }
    pipe := pipe + [fd];
  }

  method ServeRead(sock: Socket, store: CacheStorage, path: Path, fd: Fd, now: int, beyond: Byte,
                   ghost m: Wire.Message, ghost r: Result)
    returns (pipe: seq<Fd>)
    requires store.Valid() && m == Wire.ReadFile(path) && r == Read(store.Model(), path, fd, now)
    modifies sock`outgoing, store, store.nodes
    ensures store.Valid() && store.Model() == r.store
    ensures old(sock.outgoing) <= sock.outgoing && ServedAs(m, r, fd, sock.outgoing[|old(sock.outgoing)|..], [], pipe)
  {
    hide CacheStorage.Shape, Inv, Wire.Segment;
    var reply := store.ReadFile(path, fd, now, beyond);
    if reply.Failed? {
      SendResponseCode(sock, CodeOf(reply.error));
    } else {
      SendResponseCode(sock, Wire.OK);
      sock.Writen(Wire.Segment(reply.bytes));
    }
    pipe := [fd];
  }

  method ServeReadN(sock: Socket, store: CacheStorage, upperLimit: int, fd: Fd, beyond: Byte,
                    ghost m: Wire.Message, ghost r: Result)
    returns (pipe: seq<Fd>)
    requires store.Valid() && m == Wire.ReadNFiles(upperLimit) && r == ReadN(store.Model(), upperLimit)
    modifies sock`outgoing
    ensures old(sock.outgoing) <= sock.outgoing && ServedAs(m, r, fd, sock.outgoing[|old(sock.outgoing)|..], [], pipe)
  {
    hide CacheStorage.Shape, Inv, Wire.Frames;
    var res, resSize, readCount := store.ReadNFiles(upperLimit, beyond);
    SendResponseCode(sock, Wire.OK);
    sock.Writen(res[..resSize]);
    sock.Writen(Wire.Terminator());
    pipe := [fd];
  }

  method ServeLock(sock: Socket, store: CacheStorage, path: Path, fd: Fd, now: int,
                   ghost m: Wire.Message, ghost r: Result)
    returns (pipe: seq<Fd>)
    requires store.Valid() && CanLock(store.Model(), fd)
    requires m == Wire.LockFile(path) && r == Lock(store.Model(), path, fd, now)
    modifies sock`outgoing, store, store.nodes
    ensures store.Valid() && store.Model() == r.store
    ensures old(sock.outgoing) <= sock.outgoing && ServedAs(m, r, fd, sock.outgoing[|old(sock.outgoing)|..], [], pipe)
  {
    hide CacheStorage.Shape, Inv;
    var putFdBack := true;
    var outcome := store.LockFile(path, fd, now);
    if outcome.Failed? {
      SendResponseCode(sock, CodeOf(outcome.error));
    } else if outcome == Waiting {
      putFdBack := false;
    } else {
      SendResponseCode(sock, Wire.OK);
    }
    pipe := if putFdBack then [fd] else [];
  }

  method ServeUnlock(sock: Socket, store: CacheStorage, path: Path, fd: Fd, now: int,
                     ghost m: Wire.Message, ghost r: Result)
    returns (notices: seq<(Fd, nat)>, pipe: seq<Fd>)
    requires store.Valid() && m == Wire.UnlockFile(path) && r == Unlock(store.Model(), path, fd, now)
    modifies sock`outgoing, store, store.nodes
    ensures store.Valid() && store.Model() == r.store
    ensures old(sock.outgoing) <= sock.outgoing
    ensures ServedAs(m, r, fd, sock.outgoing[|old(sock.outgoing)|..], notices, pipe)
  {
    hide CacheStorage.Shape, Inv;
    var reply, newLock := store.UnlockFile(path, fd, now);
    notices, pipe := [], [];
    if reply.Failed? {
      SendResponseCode(sock, CodeOf(reply.error));
    } else {
      SendResponseCode(sock, Wire.OK);
      if newLock != 0 {
        notices, pipe := [(newLock, Wire.OK)], [newLock];
      }
    }
    pipe := pipe + [fd];
  }

  method ServeClose(sock: Socket, store: CacheStorage, path: Path, fd: Fd, now: int,
                    ghost m: Wire.Message, ghost r: Result)
    returns (pipe: seq<Fd>)
    requires store.Valid() && m == Wire.CloseFile(path) && r == Close(store.Model(), path, fd, now)
    modifies sock`outgoing, store, store.nodes
    ensures store.Valid() && store.Model() == r.store
    ensures old(sock.outgoing) <= sock.outgoing && ServedAs(m, r, fd, sock.outgoing[|old(sock.outgoing)|..], [], pipe)
  {
    hide CacheStorage.Shape, Inv;
    var reply := store.CloseFile(path, fd, now);
    if reply.Failed? {
      SendResponseCode(sock, CodeOf(reply.error));
    } else {
      SendResponseCode(sock, Wire.OK);
    }
    pipe := [fd];
  }

  method ServeRemove(sock: Socket, store: CacheStorage, path: Path, fd: Fd, ghost m: Wire.Message, ghost r: Result)
    returns (notices: seq<(Fd, nat)>, pipe: seq<Fd>)
    requires store.Valid() && m == Wire.RemoveFile(path) && r == Remove(store.Model(), path, fd)
    modifies sock`outgoing, store, store.nodes, store.dictStore, store.dictStore.buckets, store.dictStore.repr
    ensures store.Valid() && store.Model() == r.store
    ensures old(sock.outgoing) <= sock.outgoing
    ensures ServedAs(m, r, fd, sock.outgoing[|old(sock.outgoing)|..], notices, pipe)
  {
    hide CacheStorage.Shape, Inv, Destroy;
    var reply, notifyList := store.RemoveFile(path, fd);
    notices, pipe := [], [];
    if reply.Failed? {
      SendResponseCode(sock, CodeOf(reply.error));
    } else {
      SendResponseCode(sock, Wire.OK);
      notices, pipe := NotifyPendingClients(notifyList, Wire.FILE_NOT_FOUND);
    }
    pipe := pipe + [fd];
  }

  /** WRITE_FILE: the body is read whether or not the write is allowed. */
  method ServeFirstWrite(sock: Socket, store: CacheStorage, path: Path, fd: Fd, now: int, beyond: Byte,
                         ghost m: Wire.Message, ghost rest: seq<Byte>, ghost r: Result)
    returns (notices: seq<(Fd, nat)>, pipe: seq<Fd>)
    requires store.Valid() && m.WriteFile? && m.path == path && Wire.TakeSegment(sock.incoming) == Some((m.data, rest))
    requires r == Handled(store.Model(), m, fd, now)
    modifies sock, store, store.nodes, store.dictStore, store.dictStore.buckets, store.dictStore.repr
    ensures store.Valid() && store.Model() == r.store && sock.incoming == rest
    ensures old(sock.outgoing) <= sock.outgoing
    ensures ServedAs(m, r, fd, sock.outgoing[|old(sock.outgoing)|..], notices, pipe)
  {
    hide CacheStorage.Shape, Inv, Write, Wire.TakeSegment;
    var allowed := store.TestForFirstWrite(path, fd);
    if !allowed {
      SendResponseCode(sock, Wire.FORBIDDEN);
      var recvLine2 := sock.ReadSegment();
      return [], [fd];
    }
    var recvLine2 := sock.ReadSegment();
    notices, pipe := ServeWrite(sock, store, path, recvLine2, fd, now, beyond, m, r);
  }

  // ---------------------------------------------------------------- any request, well formed or not

  /** What is done for a demand. `garbage` stands for the limit a worker uses when it could not read one. */
  ghost function Outcome(s: Store, d: Wire.Demand, garbage: int, fd: Fd, now: int): Result {
    match d
    case Proper(m) => Handled(s, m, fd, now)
    case BadLimit => ReadN(s, garbage)
    case _ => Fail(s, EInval)
  }

  /**
    The bytes sent, the notices and the reports are those of the result `r` of a demand. A bad flag or code gets
    one BAD_REQUEST; after a bad limit the worker goes on, so that a listing follows the refusal.
  */
  ghost predicate AnsweredAs(d: Wire.Demand, garbage: int, r: Result, fd: Fd, sent: seq<Byte>, notices: seq<(Fd, nat)>,
                             pipe: seq<Fd>) {
    match d
    case Proper(m) => ServedAs(m, r, fd, sent, notices, pipe)
    case BadLimit =>
      sent != [] && sent[0] == Wire.DigitOf(Wire.BAD_REQUEST)
      && ServedAs(Wire.ReadNFiles(garbage), r, fd, sent[1..], notices, pipe)
    case _ => sent == [Wire.DigitOf(Wire.BAD_REQUEST)] && notices == [] && pipe == [fd]
  }

  /** The requests that carry more than a path. */
  method ServeLong(sock: Socket, store: CacheStorage, requestCode: nat, path: Path, fd: Fd, now: int, beyond: Byte,
                   ghost d: Wire.Demand, ghost rest: seq<Byte>, ghost garbage: int, ghost r: Result)
    returns (notices: seq<(Fd, nat)>, pipe: seq<Fd>)
    requires store.Valid() && Wire.TakeMore(requestCode, path, sock.incoming) == Some((d, rest))
    requires requestCode == 2 || requestCode == 4 || requestCode == 5
    requires r == Outcome(store.Model(), d, garbage, fd, now)
    modifies sock, store, store.nodes, store.dictStore, store.dictStore.buckets, store.dictStore.repr
    ensures store.Valid() && store.Model() == r.store && sock.incoming == rest
    ensures old(sock.outgoing) <= sock.outgoing
    ensures AnsweredAs(d, garbage, r, fd, sock.outgoing[|old(sock.outgoing)|..], notices, pipe)
  {
    hide CacheStorage.Shape, Inv, Write, Open, ServedAs, Wire.TakeSegment;
    if requestCode == 2 {
      var flagBuf := sock.Readn(1);
      if !Wire.IsDigit(flagBuf[0]) {
        SendResponseCode(sock, Wire.BAD_REQUEST);
        return [], [fd];
      }
      notices, pipe := ServeOpen(sock, store, path, (flagBuf[0] - Wire.ZERO) as nat, fd, now, d.m, r);
    } else if requestCode == 4 {
      notices, pipe := ServeFirstWrite(sock, store, path, fd, now, beyond, d.m, rest, r);
    } else {
      var recvLine2 := sock.ReadSegment();
      notices, pipe := ServeWrite(sock, store, path, recvLine2, fd, now, beyond, d.m, r);
    }
  }

  /** The requests that carry a path only, and those with an unknown code. */
  method ServeShort(sock: Socket, store: CacheStorage, requestCode: nat, path: Path, fd: Fd, now: int, beyond: Byte,
                    ghost d: Wire.Demand, ghost garbage: int, ghost r: Result)
    returns (notices: seq<(Fd, nat)>, pipe: seq<Fd>)
    requires store.Valid() && CanLock(store.Model(), fd) && d == Wire.OfPath(requestCode, path)
    requires r == Outcome(store.Model(), d, garbage, fd, now)
    modifies sock`outgoing, store, store.nodes, store.dictStore, store.dictStore.buckets, store.dictStore.repr
    ensures store.Valid() && store.Model() == r.store
    ensures old(sock.outgoing) <= sock.outgoing
    ensures AnsweredAs(d, garbage, r, fd, sock.outgoing[|old(sock.outgoing)|..], notices, pipe)
  {
    hide CacheStorage.Shape, Inv, ServedAs, Read, Lock, Unlock, Close, Remove, CanLock;
    notices := [];
    if requestCode == 3 {
      pipe := ServeRead(sock, store, path, fd, now, beyond, d.m, r);
    } else if requestCode == 6 {
      pipe := ServeLock(sock, store, path, fd, now, d.m, r);
    } else if requestCode == 7 {
      notices, pipe := ServeUnlock(sock, store, path, fd, now, d.m, r);
    } else if requestCode == 8 {
      pipe := ServeClose(sock, store, path, fd, now, d.m, r);
    } else if requestCode == 9 {
      notices, pipe := ServeRemove(sock, store, path, fd, d.m, r);
    } else {
      SendResponseCode(sock, Wire.BAD_REQUEST);
      pipe := [fd];
    }
  }

  /** READ_N_FILES: a bad limit is answered, and then the request is served with whatever the limit happens to be. */
  method ServeLimit(sock: Socket, store: CacheStorage, fd: Fd, beyond: Byte, garbage: int,
                    ghost d: Wire.Demand, ghost rest: seq<Byte>, ghost r: Result)
    returns (pipe: seq<Fd>)
    requires store.Valid() && Wire.TakeLimit(sock.incoming) == Some((d, rest))
    requires r == ReadN(store.Model(), if d.BadLimit? then garbage else d.m.limit)
    modifies sock
    ensures sock.incoming == rest && old(sock.outgoing) <= sock.outgoing
    ensures AnsweredAs(d, garbage, r, fd, sock.outgoing[|old(sock.outgoing)|..], [], pipe)
  {
    hide CacheStorage.Shape, Inv, ReadN, ServedAs, Wire.IsNumber;
    var argBuf := sock.Readn(Wire.METADATA_SIZE);
    var upperLimit := Wire.IsNumber(Wire.CString(argBuf));
    if upperLimit.None? {
      SendResponseCode(sock, Wire.BAD_REQUEST);
      ghost var before := sock.outgoing;
      pipe := ServeReadN(sock, store, garbage, fd, beyond, Wire.ReadNFiles(garbage), r);
      assert sock.outgoing[|old(sock.outgoing)|..][1..] == sock.outgoing[|before|..];
    } else {
      pipe := ServeReadN(sock, store, upperLimit.value, fd, beyond, d.m, r);
    }
  }

  /**
    One request: exactly its bytes are read, the storage takes the step of its handler, and exactly one response
    is sent, unless the client has to wait for a lock, or the limit of a listing is bad and both a refusal and the
    listing are sent.
  */
  method Serve(sock: Socket, store: CacheStorage, fd: Fd, now: int, beyond: Byte, garbage: int,
               ghost d: Wire.Demand, ghost rest: seq<Byte>, ghost r: Result)
    returns (notices: seq<(Fd, nat)>, pipe: seq<Fd>)
    requires store.Valid() && CanLock(store.Model(), fd)
    requires Wire.TakeRequest(sock.incoming) == Some((d, rest)) && r == Outcome(store.Model(), d, garbage, fd, now)
    modifies sock, store, store.nodes, store.dictStore, store.dictStore.buckets, store.dictStore.repr
    ensures store.Valid() && store.Model() == r.store && sock.incoming == rest
    ensures old(sock.outgoing) <= sock.outgoing
    ensures AnsweredAs(d, garbage, r, fd, sock.outgoing[|old(sock.outgoing)|..], notices, pipe)
  {
    hide CacheStorage.Shape, Inv, Outcome, AnsweredAs, CanLock, Wire.TakeMore, Wire.TakeLimit, Wire.TakeSegment;
    var requestCodeBuf := sock.Readn(1);
    var requestCode := Wire.CodeOf(requestCodeBuf[0]);
    if requestCode == 1 {
      LimitOutcome(store.Model(), sock.incoming, d, garbage, fd, now);
      pipe := ServeLimit(sock, store, fd, beyond, garbage, d, rest, r);
      return [], pipe;
    }
    var recvLine1 := sock.ReadSegment();
    var pathname := Wire.CString(recvLine1);
    if requestCode == 2 || requestCode == 4 || requestCode == 5 {
      notices, pipe := ServeLong(sock, store, requestCode, pathname, fd, now, beyond, d, rest, garbage, r);
    } else {
      ShortTakesNoMore(requestCode, pathname, sock.incoming);
      notices, pipe := ServeShort(sock, store, requestCode, pathname, fd, now, beyond, d, garbage, r);
    }
  }

  lemma ShortTakesNoMore(requestCode: nat, path: Path, rest: seq<Byte>)
    requires requestCode != 2 && requestCode != 4 && requestCode != 5
    ensures Wire.TakeMore(requestCode, path, rest) == Some((Wire.OfPath(requestCode, path), rest))
  {
  }

  lemma LimitOutcome(s: Store, stream: seq<Byte>, d: Wire.Demand, garbage: int, fd: Fd, now: int)
    requires Wire.TakeLimit(stream).Some? && Wire.TakeLimit(stream).value.0 == d
    ensures d.BadLimit? || (d.Proper? && d.m.ReadNFiles?)
    ensures Outcome(s, d, garbage, fd, now) == ReadN(s, if d.BadLimit? then garbage else d.m.limit)
    ensures ReadN(s, if d.BadLimit? then garbage else d.m.limit).store == s
  {
  }

  /** A client that has closed its connection: its heirs are told that they have a lock, the manager that it left. */
  method ServeExit(store: CacheStorage, fd: Fd) returns (notices: seq<(Fd, nat)>, pipe: seq<Fd>)
    requires store.Valid() && fd > 0
    modifies store, store.nodes
    ensures store.Valid() && store.Model() == Exit(old(store.Model()), fd).store
    ensures notices == Told(Exit(old(store.Model()), fd)) && pipe == Exit(old(store.Model()), fd).granted + [0]
  {
    hide CacheStorage.Shape, Inv;
    var reply, notifyList := store.ClientExit(fd);
    notices, pipe := NotifyPendingClients(notifyList, Wire.OK);
    pipe := pipe + [0];
  }
}
