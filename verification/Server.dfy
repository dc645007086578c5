/**
  The circulation of file descriptors in src/server.c: between the manager's read set, the task queue, the
  workers, the lock queues of the storage and the pipe back to the manager.
*/
module Server {
  import opened Prelude
  import opened StoreModel
  import Invariant = StoreInvariant
  import opened HandlerLaws
  import opened WaiterLaws
  import opened Worker

  const MAX_TASKS: nat := 2048
  const FD_SETSIZE: nat := 1024

  /** A worker has no task, handles the request of a client, or has descriptors left to write on the pipe. */
  datatype WorkerState = Free | Busy(fd: Fd) | Reporting(out: seq<Fd>)

  /** `live` are the connections that are open. A zero on the pipe says that a client has left. */
  datatype Server = Server(
    listen: Fd,
    pipeIn: Fd,
    readset: set<Fd>,
    fdNum: int,
    queue: seq<Fd>,
    workers: seq<WorkerState>,
    store: Store,
    pipe: seq<Fd>,
    clientCount: int,
    live: set<Fd>,
    softExit: bool,
    stopped: bool)

  datatype Action =
    | Accept(fd: Fd)
    | Dispatch(fd: Fd)
    | Fetch(w: nat)
    | Handle(w: nat, req: Request, now: int)
    | Refuse(w: nat)
    | Depart(w: nat)
    | Report(w: nat)
    | Collect
    | Signal
    | Interrupt

  // ---------------------------------------------------------------- steps

  predicate Enabled(s: Server, a: Action) {
    && !s.stopped
    && match a
       case Accept(fd) => s.listen < fd < FD_SETSIZE && fd !in s.live
       case Dispatch(fd) => fd in s.readset && |s.queue| < MAX_TASKS
       case Fetch(w) => w < |s.workers| && s.workers[w].Free? && s.queue != []
       case Handle(w, req, _) => w < |s.workers| && s.workers[w].Busy? && !req.ReqExit?
       case Refuse(w) => w < |s.workers| && s.workers[w].Busy?
       case Depart(w) => w < |s.workers| && s.workers[w].Busy?
       case Report(w) => w < |s.workers| && s.workers[w].Reporting?
       case Collect => s.pipe != []
       case Signal => true
       case Interrupt => s.softExit && s.clientCount == 0
  }

  /** A new connection: taken in, or closed at once during a soft exit. */
  function Accepted(s: Server, fd: Fd): Server {
    if s.softExit then s
    else
      s.(readset := s.readset + {fd}, live := s.live + {fd}, clientCount := s.clientCount + 1,
         fdNum := Max(fd, s.fdNum))
  }

  /** A ready descriptor leaves the read set for the task queue. */
  function Dispatched(s: Server, fd: Fd): Server {
    s.(readset := s.readset - {fd}, fdNum := if fd == s.fdNum then s.fdNum - 1 else s.fdNum, queue := s.queue + [fd])
  }

  /** The manager reads the pipe: a descriptor goes back to the read set, a zero takes a client off the count. */
  function Collected(s: Server): Server
    requires s.pipe != []
  {
    var fd, rest := s.pipe[0], s.pipe[1..];
    if fd != 0 then s.(pipe := rest, readset := s.readset + {fd}, fdNum := Max(fd, s.fdNum))
    else s.(pipe := rest, clientCount := s.clientCount - 1, stopped := s.clientCount - 1 == 0 && s.softExit)
  }

  /** One handler call. The test before a first write leaves the request to be carried on with. */
  ghost function HandledBy(s: Server, w: nat, req: Request, now: int): Server
    requires w < |s.workers| && s.workers[w].Busy?
  {
    var fd := s.workers[w].fd;
    var r := Step(s.store, Call(req, fd, now));
    if req.ReqTest? then s else s.(store := r.store, workers := s.workers[w := Reporting(Reported(r, fd))])
  }

  /** The client has closed its connection: its locks go to its heirs, and a zero is reported for it. */
  ghost function Departed(s: Server, w: nat): Server
    requires w < |s.workers| && s.workers[w].Busy?
  {
    var fd := s.workers[w].fd;
    var r := Exit(s.store, fd);
    s.(store := r.store, live := s.live - {fd}, workers := s.workers[w := Reporting(r.granted + [0])])
  }

  function ReportedOne(s: Server, w: nat): Server
    requires w < |s.workers| && s.workers[w].Reporting?
  {
    var out := s.workers[w].out;
    if out == [] then s.(workers := s.workers[w := Free])
    else s.(pipe := s.pipe + [out[0]], workers := s.workers[w := Reporting(out[1..])])
  }

  ghost function Next(s: Server, a: Action): Server
    requires Enabled(s, a)
  {
    match a
    case Accept(fd) => Accepted(s, fd)
    case Dispatch(fd) => Dispatched(s, fd)
    case Fetch(w) => s.(queue := s.queue[1..], workers := s.workers[w := Busy(s.queue[0])])
    case Handle(w, req, now) => HandledBy(s, w, req, now)
    case Refuse(w) => s.(workers := s.workers[w := Reporting([s.workers[w].fd])])
    case Depart(w) => Departed(s, w)
    case Report(w) => ReportedOne(s, w)
    case Collect => Collected(s)
    case Signal => s.(softExit := true)
    case Interrupt => s.(stopped := true)
  }

  // ---------------------------------------------------------------- where a descriptor is

  function InWorker(w: WorkerState, fd: Fd): nat {
    match w
    case Free => 0
    case Busy(x) => One(x == fd)
    case Reporting(out) => Count(out, fd)
  }

  function InWorkers(workers: seq<WorkerState>, fd: Fd): nat {
    if workers == [] then 0 else InWorker(workers[0], fd) + InWorkers(workers[1..], fd)
  }

  /** In how many places `fd` is. */
  function Places(s: Server, fd: Fd): nat {
    One(fd in s.readset) + Count(s.queue, fd) + InWorkers(s.workers, fd)
    + WaiterLaws.Waiting(s.store.files, fd) + Count(s.pipe, fd)
  }

  /** Departures the manager has not read yet. */
  function UnreadExits(s: Server): nat {
    InWorkers(s.workers, 0) + Count(s.pipe, 0)
  }

  lemma {:induction false} InWorkersAfterUpdate(workers: seq<WorkerState>, w: nat, x: WorkerState, fd: Fd)
    requires w < |workers|
    ensures InWorkers(workers[w := x], fd) == InWorkers(workers, fd) - InWorker(workers[w], fd) + InWorker(x, fd)
  {
    hide InWorker;
    var after := workers[w := x];
    if w == 0 {
      assert after[1..] == workers[1..];
    } else {
      assert after[1..] == workers[1..][w - 1 := x];
      InWorkersAfterUpdate(workers[1..], w - 1, x, fd);
    }
  }

  lemma {:induction false} InWorkersAtLeast(workers: seq<WorkerState>, w: nat, fd: Fd)
    requires w < |workers|
    ensures InWorkers(workers, fd) >= InWorker(workers[w], fd)
  {
    hide InWorker;
    if w > 0 {
      InWorkersAtLeast(workers[1..], w - 1, fd);
    }
  }

  lemma CountOfOne(x: Fd, fd: Fd)
    ensures Count([x], fd) == One(x == fd)
  {
    assert Count([x], fd) == One(x == fd) + Count([], fd);
  }

  lemma CountOfHead(fds: seq<Fd>, fd: Fd)
    requires fds != []
    ensures Count(fds, fd) == One(fds[0] == fd) + Count(fds[1..], fd)
  {
  }

  // ---------------------------------------------------------------- the invariant

  /** A connected descriptor is in exactly one place, any other in none. */
  ghost predicate PlaceOk(s: Server, fd: Fd) {
    fd != 0 ==> Places(s, fd) == One(fd in s.live)
  }

  /** Zero is never taken for a client. */
  ghost predicate NoZero(s: Server) {
    && 0 !in s.readset && 0 !in s.queue
    && forall w {:trigger s.workers[w]} :: 0 <= w < |s.workers| ==> s.workers[w] != Busy(0)
  }

  /** `select` looks at every descriptor that may be ready. */
  ghost predicate Bounded(s: Server) {
    && 0 < s.pipeIn < s.listen <= s.fdNum
    && (forall fd {:trigger fd in s.readset} :: fd in s.readset ==> fd <= s.fdNum)
    && (forall fd {:trigger fd in s.live} :: fd in s.live ==> s.listen < fd < FD_SETSIZE)
  }

  ghost predicate Inv(s: Server) {
    && (forall fd {:trigger PlaceOk(s, fd)} :: PlaceOk(s, fd))
    && NoZero(s) && Bounded(s)
    && s.clientCount == |s.live| + UnreadExits(s)
    && Invariant.Inv(s.store)
  }

  /** Whoever a worker is busy with is connected, and waits for no lock: its requests are admissible. */
  lemma BusyIsAdmissible(s: Server, w: nat, req: Request, now: int)
    requires Inv(s) && w < |s.workers| && s.workers[w].Busy?
    ensures s.workers[w].fd in s.live && Admissible(s.store, Call(req, s.workers[w].fd, now))
  {
    var fd := s.workers[w].fd;
    assert s.workers[w] != Busy(0) && PlaceOk(s, fd);
    InWorkersAtLeast(s.workers, w, fd);
    WaitsOnce(s.store.files, fd);
  }

  // ---------------------------------------------------------------- every step keeps it

  lemma AcceptKeeps(s: Server, fd: Fd)
    requires Inv(s) && Enabled(s, Accept(fd))
    ensures Inv(Accepted(s, fd))
  {
    var s' := Accepted(s, fd);
    forall x ensures PlaceOk(s', x) {
      assert PlaceOk(s, x);
    }
  }

  lemma DispatchKeeps(s: Server, fd: Fd)
    requires Inv(s) && Enabled(s, Dispatch(fd))
    ensures Inv(Dispatched(s, fd))
  {
    var s' := Dispatched(s, fd);
    assert PlaceOk(s, fd);
    forall x ensures PlaceOk(s', x) {
      assert PlaceOk(s, x);
      CountOfAppend(s.queue, [fd], x);
      CountOfOne(fd, x);
    }
  }

  lemma FetchKeeps(s: Server, w: nat)
    requires Inv(s) && Enabled(s, Fetch(w))
    ensures Inv(Next(s, Fetch(w)))
  {
    var s' := Next(s, Fetch(w));
    forall x ensures PlaceOk(s', x) {
      assert PlaceOk(s, x);
      CountOfHead(s.queue, x);
      InWorkersAfterUpdate(s.workers, w, Busy(s.queue[0]), x);
    }
    InWorkersAfterUpdate(s.workers, w, Busy(s.queue[0]), 0);
  }

  lemma ReportKeeps(s: Server, w: nat)
    requires Inv(s) && Enabled(s, Report(w))
    ensures Inv(ReportedOne(s, w))
  {
    hide Invariant.Inv, Count, InWorkers;
    var s' := ReportedOne(s, w);
    forall x ensures PlaceOk(s', x) {
      assert PlaceOk(s, x);
      ReportMoves(s, w, x);
    }
    ReportMoves(s, w, 0);
  }

  /** A report moves a descriptor from a worker to the pipe. */
  lemma ReportMoves(s: Server, w: nat, x: Fd)
    requires w < |s.workers| && s.workers[w].Reporting?
    ensures InWorkers(ReportedOne(s, w).workers, x) + Count(ReportedOne(s, w).pipe, x)
      == InWorkers(s.workers, x) + Count(s.pipe, x)
  {
    var out := s.workers[w].out;
    InWorkersAfterUpdate(s.workers, w, ReportedOne(s, w).workers[w], x);
    if out != [] {
      CountOfHead(out, x);
      CountOfAppend(s.pipe, [out[0]], x);
      CountOfOne(out[0], x);
    }
  }

  lemma CollectKeeps(s: Server)
    requires Inv(s) && Enabled(s, Collect)
    ensures Inv(Collected(s))
  {
    var s', fd := Collected(s), s.pipe[0];
    assert PlaceOk(s, fd);
    CountOfHead(s.pipe, fd);
    CountOfHead(s.pipe, 0);
    forall x ensures PlaceOk(s', x) {
      assert PlaceOk(s, x);
      CountOfHead(s.pipe, x);
    }
  }

  /** What a worker reports after a handler call accounts for its own client and for all that the call has answered. */
  lemma ReportedCounts(r: Result, fd: Fd, x: Fd)
    ensures Count(Reported(r, fd), x)
      == Count(r.gone, x) + Count(r.granted, x) + if r.reply.Waiting? then 0 else One(fd == x)
  {
    var own := if r.reply.Waiting? then [] else [fd];
    CountOfAppend(r.gone + r.granted, own, x);
    CountOfAppend(r.gone, r.granted, x);
    CountOfOne(fd, x);
  }

  lemma HandleMoves(s: Server, w: nat, req: Request, now: int, x: Fd)
    requires Inv(s) && Enabled(s, Handle(w, req, now)) && !req.ReqTest?
    ensures InWorkers(HandledBy(s, w, req, now).workers, x)
      + WaiterLaws.Waiting(HandledBy(s, w, req, now).store.files, x)
      == InWorkers(s.workers, x) + WaiterLaws.Waiting(s.store.files, x)
  {
    hide Step, Invariant.Inv, Inv;
    var fd := s.workers[w].fd;
    var c := Call(req, fd, now);
    var r := Step(s.store, c);
    BusyIsAdmissible(s, w, req, now);
    StoreOk(s);
    StepConserves(s.store, c, x);
    ReportedCounts(r, fd, x);
    InWorkersAfterUpdate(s.workers, w, Reporting(Reported(r, fd)), x);
  }

  lemma StoreOk(s: Server)
    requires Inv(s)
    ensures Invariant.Inv(s.store)
  {
  }

  lemma NobodyWaitsAsZero(s: Store)
    requires Invariant.Inv(s)
    ensures WaiterLaws.Waiting(s.files, 0) == 0
  {
    WaitsOnce(s.files, 0);
    forall i | 0 <= i < |s.files| ensures 0 !in s.files[i].pending {
      assert Invariant.FileOk(s.files[i]);
    }
  }

  lemma HandleKeeps(s: Server, w: nat, req: Request, now: int)
    requires Inv(s) && Enabled(s, Handle(w, req, now))
    ensures Inv(HandledBy(s, w, req, now))
  {
    hide Step, Invariant.Inv, Reported;
    if !req.ReqTest? {
      var s' := HandledBy(s, w, req, now);
      BusyIsAdmissible(s, w, req, now);
      HandlerLaws.StepKeepsInv(s.store, Call(req, s.workers[w].fd, now));
      forall x ensures PlaceOk(s', x) {
        assert PlaceOk(s, x);
        HandleMoves(s, w, req, now, x);
      }
      HandleMoves(s, w, req, now, 0);
      NobodyWaitsAsZero(s.store);
      NobodyWaitsAsZero(s'.store);
    }
  }

  lemma RefuseKeeps(s: Server, w: nat)
    requires Inv(s) && Enabled(s, Refuse(w))
    ensures Inv(Next(s, Refuse(w)))
  {
    var s', fd := Next(s, Refuse(w)), s.workers[w].fd;
    forall x ensures PlaceOk(s', x) {
      assert PlaceOk(s, x);
      CountOfOne(fd, x);
      InWorkersAfterUpdate(s.workers, w, Reporting([fd]), x);
    }
    CountOfOne(fd, 0);
    InWorkersAfterUpdate(s.workers, w, Reporting([fd]), 0);
    assert s.workers[w] != Busy(0);
  }

  lemma DepartMoves(s: Server, w: nat, x: Fd)
    requires Inv(s) && Enabled(s, Depart(w))
    ensures InWorkers(Departed(s, w).workers, x) + WaiterLaws.Waiting(Departed(s, w).store.files, x)
      + One(x == s.workers[w].fd)
      == InWorkers(s.workers, x) + WaiterLaws.Waiting(s.store.files, x) + One(x == 0)
  {
    hide Exit, Invariant.Inv, Inv;
    var fd := s.workers[w].fd;
    var r := Exit(s.store, fd);
    BusyIsAdmissible(s, w, ReqExit, 0);
    StoreOk(s);
    ExitConservesWaiters(s.store, fd, x);
    CountOfAppend(r.granted, [0], x);
    CountOfOne(0, x);
    InWorkersAfterUpdate(s.workers, w, Reporting(r.granted + [0]), x);
  }

  lemma ExitConservesWaiters(s: Store, fd: Fd, x: Fd)
    requires Invariant.Inv(s) && Admissible(s, Call(ReqExit, fd, 0))
    ensures WaiterLaws.Waiting(s.files, x)
      == WaiterLaws.Waiting(Exit(s, fd).store.files, x) + Count(Exit(s, fd).granted, x)
  {
    StepConserves(s, Call(ReqExit, fd, 0), x);
  }

  lemma DepartKeeps(s: Server, w: nat)
    requires Inv(s) && Enabled(s, Depart(w))
    ensures Inv(Departed(s, w))
  {
    hide Exit, Invariant.Inv;
    var s', fd := Departed(s, w), s.workers[w].fd;
    BusyIsAdmissible(s, w, ReqExit, 0);
    HandlerLaws.ExitKeeps(s.store, fd);
    forall x ensures PlaceOk(s', x) {
      assert PlaceOk(s, x) && PlaceOk(s, fd);
      DepartMoves(s, w, x);
    }
    DepartMoves(s, w, 0);
    NobodyWaitsAsZero(s.store);
    NobodyWaitsAsZero(s'.store);
  }

  /** Every step of the manager and of every worker keeps the invariant. */
  lemma NextKeepsInv(s: Server, a: Action)
    requires Inv(s) && Enabled(s, a)
    ensures Inv(Next(s, a))
  {
    hide Enabled, HandledBy, Departed, Dispatched, Accepted, Collected, ReportedOne;
    match a {
      case Accept(fd) => AcceptKeeps(s, fd);
      case Dispatch(fd) => DispatchKeeps(s, fd);
      case Fetch(w) => FetchKeeps(s, w);
      case Handle(w, req, now) => HandleKeeps(s, w, req, now);
      case Refuse(w) => RefuseKeeps(s, w);
      case Depart(w) => DepartKeeps(s, w);
      case Report(w) => ReportKeeps(s, w);
      case Collect => CollectKeeps(s);
      case Signal => FlagKeeps(s, s.(softExit := true));
      case Interrupt => FlagKeeps(s, s.(stopped := true));
    }
  }

  lemma FlagKeeps(s: Server, s': Server)
    requires Inv(s) && s' == s.(softExit := s'.softExit, stopped := s'.stopped)
    ensures Inv(s')
  {
    forall x ensures PlaceOk(s', x) {
      assert PlaceOk(s, x);
    }
  }

  // ---------------------------------------------------------------- every run

  ghost predicate IsRun(s: Server, actions: seq<Action>)
    decreases |actions|
  {
    actions == [] || (Enabled(s, actions[0]) && IsRun(Next(s, actions[0]), actions[1..]))
  }

  ghost function Reached(s: Server, actions: seq<Action>): Server
    requires IsRun(s, actions)
    decreases |actions|
  {
    if actions == [] then s else Reached(Next(s, actions[0]), actions[1..])
  }

  /** The server after start-up: no client, idle workers, an empty storage. */
  function Initial(listen: Fd, pipeIn: Fd, n: nat, store: Store): Server {
    Server(listen, pipeIn, {}, listen, [], seq(n, _ => Free), store, [], 0, {}, false, false)
  }

  lemma {:induction false} NobodyAtFirst(n: nat, fd: Fd)
    ensures InWorkers(seq(n, _ => Free), fd) == 0
  {
    if n > 0 {
      NobodyAtFirst(n - 1, fd);
      assert seq(n, _ => Free)[1..] == seq(n - 1, _ => Free);
    }
  }

  lemma InitialInv(listen: Fd, pipeIn: Fd, n: nat, maxFileNum: nat, maxStorageSize: nat, algo: Algo)
    requires 0 < pipeIn < listen && maxFileNum > 0
    ensures Inv(Initial(listen, pipeIn, n, InitialStore(maxFileNum, maxStorageSize, algo)))
  {
    var s := Initial(listen, pipeIn, n, InitialStore(maxFileNum, maxStorageSize, algo));
    HandlerLaws.InitialInv(maxFileNum, maxStorageSize, algo);
    forall x ensures PlaceOk(s, x) {
      NobodyAtFirst(n, x);
    }
    NobodyAtFirst(n, 0);
  }

  lemma {:induction false} RunKeepsInv(s: Server, actions: seq<Action>)
    requires Inv(s) && IsRun(s, actions)
    ensures Inv(Reached(s, actions))
    decreases |actions|
  {
    hide Inv, Enabled, Next;
    if actions != [] {
      NextKeepsInv(s, actions[0]);
      RunKeepsInv(Next(s, actions[0]), actions[1..]);
    }
  }

  /**
    Over every run, every connected descriptor is in exactly one of the read set, the task queue, a worker, a
    lock queue and the pipe, and no other descriptor is in any of them; `fd_num` bounds the read set; and the
    client count is the open connections plus the departures not read yet.
  */
  lemma DescriptorsAreConserved(s: Server, actions: seq<Action>, fd: Fd)
    requires Inv(s) && IsRun(s, actions) && fd != 0
    ensures var s' := Reached(s, actions);
      && Places(s', fd) == One(fd in s'.live)
      && (fd in s'.readset ==> fd <= s'.fdNum) && s'.listen <= s'.fdNum
      && s'.clientCount == |s'.live| + UnreadExits(s')
  {
    hide IsRun, Reached, Places;
    RunKeepsInv(s, actions);
    assert PlaceOk(Reached(s, actions), fd);
  }

  // ---------------------------------------------------------------- soft exit

  /** Nobody is left, and every departure has been read. */
  predicate Empty(s: Server) {
    s.live == {} && UnreadExits(s) == 0
  }

  /** The client count is down to zero exactly when nobody is left; the signal that interrupts `select` can tell. */
  lemma InterruptStopsIff(s: Server)
    requires Inv(s)
    ensures Enabled(s, Interrupt) <==> !s.stopped && s.softExit && Empty(s)
  {
    hide UnreadExits;
  }

  /** A client that is reported is still connected. */
  lemma ReportedIsLive(s: Server)
    requires Inv(s) && s.pipe != [] && s.pipe[0] != 0
    ensures s.pipe[0] in s.live && s.pipe[0] !in s.readset
  {
    assert PlaceOk(s, s.pipe[0]);
    CountOfHead(s.pipe, s.pipe[0]);
  }

  /** Reading the pipe stops the server exactly when it leaves a soft exit with nobody. */
  lemma CollectStopsIff(s: Server)
    requires Inv(s) && Enabled(s, Collect)
    ensures Collected(s).stopped <==> s.softExit && Empty(Collected(s))
  {
    hide Invariant.Inv, PlaceOk, UnreadExits, Places;
    CollectKeeps(s);
    if s.pipe[0] != 0 {
      ReportedIsLive(s);
    }
  }

  /**
    The server stops by itself, by a signal or when it reads the pipe, exactly when during a soft exit no client is
    left anywhere: none connected, waiting, queued, handled or reported, and no departure unread.
  */
  lemma SoftExitLeavesNobody(s: Server, a: Action, fd: Fd)
    requires Inv(s) && Enabled(s, a) && fd != 0
    ensures var s' := Next(s, a);
      && (s'.stopped <==> (a.Interrupt? || a.Collect?) && s'.softExit && Empty(s'))
      && (s'.stopped ==> Places(s', fd) == 0)
  {
    hide Places, UnreadExits, Invariant.Inv, Exit, Step;
    NextKeepsInv(s, a);
    assert PlaceOk(Next(s, a), fd);
    if a.Collect? {
      CollectStopsIff(s);
    } else if a.Interrupt? {
      InterruptStopsIff(s);
    }
  }

  /** Over every run: a server that has stopped was told to exit softly and has left nobody. */
  lemma {:induction false} StoppedLeavesNobody(s: Server, actions: seq<Action>, fd: Fd)
    requires Inv(s) && !s.stopped && IsRun(s, actions) && fd != 0
    ensures var s' := Reached(s, actions);
      s'.stopped ==> s'.softExit && Empty(s') && Places(s', fd) == 0
    decreases |actions|
  {
    hide Inv, Enabled, Next, Empty, Places;
    if actions != [] {
      NextKeepsInv(s, actions[0]);
      SoftExitLeavesNobody(s, actions[0], fd);
      if Next(s, actions[0]).stopped {
        NothingAfterStop(Next(s, actions[0]), actions[1..]);
      } else {
        StoppedLeavesNobody(Next(s, actions[0]), actions[1..], fd);
      }
    }
  }

  lemma NothingAfterStop(s: Server, actions: seq<Action>)
    requires s.stopped && IsRun(s, actions)
    ensures actions == []
  {
  }

  /** The same for a server that has just started, with any number of workers, any configuration and any run. */
  lemma ConservedFromStart(listen: Fd, pipeIn: Fd, n: nat, store: Store, actions: seq<Action>, fd: Fd)
    requires 0 < pipeIn < listen && store.maxFileNum > 0
    requires store == InitialStore(store.maxFileNum, store.maxStorageSize, store.algo)
    requires IsRun(Initial(listen, pipeIn, n, store), actions) && fd != 0
    ensures var s' := Reached(Initial(listen, pipeIn, n, store), actions);
      && Places(s', fd) == One(fd in s'.live)
      && (fd in s'.readset ==> fd <= s'.fdNum) && s'.listen <= s'.fdNum
      && s'.clientCount == |s'.live| + UnreadExits(s')
      && (s'.stopped ==> s'.softExit && Empty(s'))
  {
    hide Inv, IsRun, Reached, Places, UnreadExits, Empty;
    InitialInv(listen, pipeIn, n, store.maxFileNum, store.maxStorageSize, store.algo);
    DescriptorsAreConserved(Initial(listen, pipeIn, n, store), actions, fd);
    StoppedLeavesNobody(Initial(listen, pipeIn, n, store), actions, fd);
  }

  // ---------------------------------------------------------------- the manager's own steps

  /** A run may be extended at its end. */
  lemma {:induction false} OneMoreStep(s: Server, actions: seq<Action>, a: Action)
    requires IsRun(s, actions) && Enabled(Reached(s, actions), a)
    ensures IsRun(s, actions + [a]) && Reached(s, actions + [a]) == Next(Reached(s, actions), a)
    decreases |actions|
  {
    hide Enabled, Next;
    if actions == [] {
      assert [a][1..] == [];
    } else {
      OneMoreStep(Next(s, actions[0]), actions[1..], a);
      assert (actions + [a])[1..] == actions[1..] + [a];
    }
  }

  /** Workers leave the variables of the manager alone. */
  lemma WorkersLeaveManager(s: Server, a: Action)
    requires Enabled(s, a) && (a.Fetch? || a.Handle? || a.Refuse? || a.Depart? || a.Report?)
    ensures var s' := Next(s, a);
      s'.readset == s.readset && s'.fdNum == s.fdNum && s'.clientCount == s.clientCount && s'.softExit == s.softExit
  {
    hide Step, Exit;
  }

  // ---------------------------------------------------------------- the task queue

  function Below(n: nat): (r: set<int>)
    ensures |r| == n && forall x :: x in r <==> 0 <= x < n
  {
    if n == 0 then {} else Below(n - 1) + {n - 1}
  }

  lemma {:induction false} SizeOfDistinct(fds: seq<Fd>, n: nat)
    requires forall fd {:trigger Count(fds, fd)} :: Count(fds, fd) <= 1
    requires forall k :: 0 <= k < |fds| ==> 0 <= fds[k] < n
    ensures |fds| <= n
  {
    DistinctSize(fds);
    var members := set k | 0 <= k < |fds| :: fds[k];
    SubsetSize(members, Below(n));
  }

  lemma {:induction false} DistinctSize(fds: seq<Fd>)
    requires forall fd {:trigger Count(fds, fd)} :: Count(fds, fd) <= 1
    ensures |set k | 0 <= k < |fds| :: fds[k]| == |fds|
  {
    if fds != [] {
      var head, rest := fds[0], fds[1..];
      var members, others := set k | 0 <= k < |fds| :: fds[k], set k | 0 <= k < |rest| :: rest[k];
      forall fd ensures Count(rest, fd) <= 1 {
        CountOfHead(fds, fd);
      }
      DistinctSize(rest);
      CountOfHead(fds, head);
      CountIsPositive(rest, head);
      assert members == others + {head} by {
        assert fds == [head] + rest;
        forall x | x in others ensures x in members {
          var k :| 0 <= k < |rest| && rest[k] == x;
          assert fds[k + 1] == x;
        }
      }
    }
  }

  /** The manager never finds the task queue full: there are fewer descriptors than tasks it can hold. */
  lemma QueueHasRoom(s: Server)
    requires Inv(s)
    ensures |s.queue| < MAX_TASKS
  {
    forall fd ensures Count(s.queue, fd) <= 1 {
      assert PlaceOk(s, fd);
      CountIsPositive(s.queue, fd);
    }
    forall k | 0 <= k < |s.queue| ensures 0 <= s.queue[k] < FD_SETSIZE {
      assert PlaceOk(s, s.queue[k]) && s.queue[k] in s.queue;
      CountIsPositive(s.queue, s.queue[k]);
    }
    SizeOfDistinct(s.queue, FD_SETSIZE);
  }
}
