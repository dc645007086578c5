/**
  The locks of src/filesystemApi.c as a machine of single steps: every lock, unlock, wait, wake and flag
  update of every thread is one step, for any number of threads and files.

  A handler takes the store mutex, then the `ordering` mutex of its file, then the `mutex` of its file, and
  waits on the file's condition while readers or a writer are in their way. Readers count themselves in
  `activeReaders`; writers (write, lock and close) set `isBeingWritten`.
*/
module ReadWrite {
  import opened Prelude

  type Tid = nat
  type FileId = nat

  /** What a thread is doing. `Destroy` is the destruction of a file: of a victim while writing to `own`, or alone. */
  datatype Op = Read | Write | Lock | Unlock | Close | Open | Test | Exit | Destroy(own: Option<FileId>)

  /** Where a thread goes once it has released a file. */
  datatype Next = ToWindow | ToEnd

  datatype Pc =
    | Idle
    | WantStore(op: Op)
    | HaveStore(op: Op)
    | WantOrdering(op: Op, f: FileId)
    | WantMutex(op: Op, f: FileId)
    | Got(op: Op, f: FileId)
    | Check(op: Op, f: FileId)
    | Loop(op: Op, f: FileId)
    | Parked(op: Op, f: FileId)
    | Waking(op: Op, f: FileId)
    | DropOrdering(op: Op, f: FileId, next: Next)
    | DropMutex(op: Op, f: FileId, next: Next)
    | DropMutexFirst(op: Op, f: FileId)
    | DropOrderingLast(op: Op, f: FileId)
    | Window(op: Op, f: FileId)
    | Out(op: Op, f: FileId)
    | Fin(op: Op)

  datatype File = File(
    linked: bool,
    ordering: Option<Tid>,
    mutex: Option<Tid>,
    activeReaders: int,
    isBeingWritten: bool)

  /** `aborted` is set by a failed assert, and ends the run. */
  datatype State = State(store: Option<Tid>, files: seq<File>, threads: seq<Pc>, aborted: bool)

  // ---------------------------------------------------------------- what a program counter implies

  /** Whether the handler keeps the store mutex to its end. */
  predicate Keeps(op: Op) {
    op.Write? || op.Close? || op.Open? || op.Exit? || op.Destroy?
  }

  predicate HoldsStore(pc: Pc) {
    match pc
    case Idle => false
    case WantStore(_) => false
    case HaveStore(_) => true
    case WantOrdering(_, _) => true
    case WantMutex(_, _) => true
    case Got(_, _) => true
    case _ => Keeps(pc.op)
  }

  predicate HoldsOrdering(pc: Pc, f: FileId) {
    && (|| pc.WantMutex? || pc.Got? || pc.Check? || pc.Loop? || pc.Parked? || pc.Waking?
        || pc.DropOrdering? || pc.DropMutexFirst? || pc.DropOrderingLast?)
    && pc.f == f
  }

  predicate HoldsMutex(pc: Pc, f: FileId) {
    (pc.Got? || pc.Check? || pc.Loop? || pc.DropOrdering? || pc.DropMutex? || pc.DropMutexFirst? || pc.Out?)
    && pc.f == f
  }

  /** Between entering a file and having updated its flags on the way out. */
  predicate Inside(pc: Pc, f: FileId) {
    ((pc.DropOrdering? && pc.next.ToWindow?) || (pc.DropMutex? && pc.next.ToWindow?) || pc.Window? || pc.Out?)
    && pc.f == f
  }

  predicate InRead(pc: Pc, f: FileId) {
    Inside(pc, f) && pc.op.Read?
  }

  /** A thread that evicts other files is still writing to its own. */
  predicate InWrite(pc: Pc, f: FileId) {
    (Inside(pc, f) && (pc.op.Write? || pc.op.Lock? || pc.op.Close?)) || (!pc.Idle? && pc.op == Destroy(Some(f)))
  }

  predicate HasFile(pc: Pc) {
    !pc.Idle? && !pc.WantStore? && !pc.HaveStore? && !pc.Fin?
  }

  /** The thread holds a pointer to the file. */
  predicate Refers(pc: Pc, f: FileId) {
    (HasFile(pc) && pc.f == f) || (!pc.Idle? && pc.op == Destroy(Some(f)))
  }

  /** The thread has unlinked the file and is about to free it. */
  predicate Frees(pc: Pc, f: FileId) {
    (pc.DropOrdering? || pc.DropMutex?) && pc.op.Destroy? && pc.f == f
  }

  /** The condition of the wait loop of a handler. */
  predicate MustWait(op: Op, file: File) {
    match op
    case Read => file.isBeingWritten
    case Write => file.activeReaders > 0
    case _ => file.activeReaders > 0 || file.isBeingWritten
  }

  /** Program counters that make sense together with their operation. */
  predicate Sensible(pc: Pc) {
    match pc
    case Idle => true
    case WantStore(op) => !(op.Destroy? && op.own.Some?)
    case HaveStore(op) => !(op.Destroy? && op.own.Some?)
    case Fin(op) => Keeps(op) && !(op.Destroy? && op.own.Some?)
    case Got(op, _) => !Keeps(op)
    case Check(op, _) => op.Read? || op.Write? || op.Open? || op.Test?
    case Loop(op, f) => !op.Open? && !op.Test? && op != Destroy(Some(f))
    case Parked(op, f) => !op.Open? && !op.Test? && op != Destroy(Some(f))
    case Waking(op, f) => !op.Open? && !op.Test? && op != Destroy(Some(f))
    case DropOrdering(op, f, next) =>
      (next.ToWindow? ==> op.Read? || op.Write? || op.Lock? || op.Close?) && op != Destroy(Some(f))
    case DropMutex(op, f, next) =>
      (next.ToWindow? ==> op.Read? || op.Write? || op.Lock? || op.Close?) && op != Destroy(Some(f))
    case DropMutexFirst(op, _) => op.Lock?
    case DropOrderingLast(op, _) => op.Lock?
    case Window(op, _) => op.Read? || op.Write? || op.Lock? || op.Close?
    case Out(op, _) => op.Read? || op.Write? || op.Lock? || op.Close?
    case _ => pc.op != Destroy(Some(pc.f))
  }

  // ---------------------------------------------------------------- steps

  datatype Action =
    | Start(op: Op)
    | GetStore
    | Pick(f: FileId)
    | GiveUp
    | Create
    | GetOrdering
    | GetMutex
    | DropStore
    | Deny
    | Admit
    | Turn
    | Queue
    | Release
    | Evict(f: FileId)
    | Leave
    | Update(woken: Option<Tid>)
    | Finish
    | Spurious

  /** Where a handler goes once it has its file. */
  function Entry(op: Op, f: FileId): Pc {
    if op.Read? || op.Write? || op.Open? || op.Test? then Check(op, f) else Loop(op, f)
  }

  function End(op: Op): Pc {
    match op
    case Exit => HaveStore(Exit)
    case Destroy(Some(own)) => Window(Write, own)
    case _ => if Keeps(op) then Fin(op) else Idle
  }

  /** The thread at `t` may take action `a`. */
  predicate Enabled(s: State, t: Tid, a: Action) {
    && !s.aborted && t < |s.threads|
    && var pc := s.threads[t];
    && (HasFile(pc) ==> pc.f < |s.files|)
    && match a
       case Start(op) => pc.Idle? && !(op.Destroy? && op.own.Some?)
       case GetStore => pc.WantStore? && s.store.None?
       case Pick(f) => pc.HaveStore? && f < |s.files| && s.files[f].linked
       case GiveUp => pc.HaveStore?
       case Create => pc == HaveStore(Open) || pc == Fin(Destroy(None))
       case GetOrdering => pc.WantOrdering? && s.files[pc.f].ordering.None?
       case GetMutex => (pc.WantMutex? || pc.Waking?) && s.files[pc.f].mutex.None?
       case DropStore => pc.Got?
       case Deny => pc.Check? && (pc.op.Read? || (pc.op.Write? && !s.files[pc.f].isBeingWritten))
       case Admit => pc.Check?
       case Turn => pc.Loop?
       case Queue => pc.Loop? && pc.op.Lock? && !MustWait(pc.op, s.files[pc.f])
       case Release => pc.DropOrdering? || pc.DropMutex? || pc.DropMutexFirst? || pc.DropOrderingLast?
       case Evict(g) => pc.Window? && pc.op.Write? && g < |s.files| && s.files[g].linked && g != pc.f
       case Leave => pc.Window? && s.files[pc.f].mutex.None?
       case Update(woken) => pc.Out? && Wakes(s, pc, woken)
       case Finish => pc.Fin?
       case Spurious => pc.Parked?
  }

  /** `pthread_cond_signal` wakes one of the threads that are parked on the file, if there is one. */
  predicate Wakes(s: State, pc: Pc, woken: Option<Tid>)
    requires pc.Out? && pc.f < |s.files|
  {
    if pc.op.Read? && s.files[pc.f].activeReaders == 1 then
      if woken.Some? then woken.value < |s.threads| && IsParked(s.threads[woken.value], pc.f)
      else forall u :: 0 <= u < |s.threads| ==> !IsParked(s.threads[u], pc.f)
    else woken.None?
  }

  predicate IsParked(pc: Pc, f: FileId) {
    pc.Parked? && pc.f == f
  }

  function Woken(pc: Pc): Pc {
    if pc.Parked? then Waking(pc.op, pc.f) else pc
  }

  /** `pthread_cond_broadcast` */
  function WakeAll(threads: seq<Pc>, f: FileId): (r: seq<Pc>)
    ensures |r| == |threads|
    ensures forall u :: 0 <= u < |r| ==> r[u] == if IsParked(threads[u], f) then Woken(threads[u]) else threads[u]
  {
    seq(|threads|, u requires 0 <= u < |threads| => if IsParked(threads[u], f) then Woken(threads[u]) else threads[u])
  }

  function WakeOne(threads: seq<Pc>, woken: Option<Tid>): (r: seq<Pc>)
    ensures |r| == |threads|
  {
    if woken.Some? && woken.value < |threads| then threads[woken.value := Woken(threads[woken.value])] else threads
  }

  function At(s: State, t: Tid, pc: Pc): State
    requires t < |s.threads|
  {
    s.(threads := s.threads[t := pc])
  }

  function On(s: State, t: Tid, pc: Pc, file: File): State
    requires t < |s.threads| && HasFile(s.threads[t]) && s.threads[t].f < |s.files|
  {
    s.(threads := s.threads[t := pc], files := s.files[s.threads[t].f := file])
  }

  /** Passing the wait loop of a handler. */
  function Pass(s: State, t: Tid): State
    requires t < |s.threads| && s.threads[t].Loop? && s.threads[t].f < |s.files|
  {
    var op, f := s.threads[t].op, s.threads[t].f;
    var file := s.files[f];
    match op
    case Read => On(s, t, DropOrdering(op, f, ToWindow), file.(activeReaders := file.activeReaders + 1))
    case Write => On(s, t, DropOrdering(op, f, ToWindow), file.(isBeingWritten := true))
    case Lock => On(s, t, DropOrdering(op, f, ToWindow), file.(isBeingWritten := true))
    case Close => On(s, t, DropOrdering(op, f, ToWindow), file.(isBeingWritten := true))
    case Unlock => At(s.(threads := WakeAll(s.threads, f)), t, DropOrdering(op, f, ToEnd))
    case Destroy(_) => On(s, t, DropOrdering(op, f, ToEnd), file.(linked := false))
    case _ => At(s, t, DropOrdering(op, f, ToEnd))
  }

  function Released(s: State, t: Tid): State
    requires Enabled(s, t, Release)
  {
    var pc := s.threads[t];
    var file := s.files[pc.f];
    match pc
    case DropOrdering(op, f, next) => On(s, t, DropMutex(op, f, next), file.(ordering := None))
    case DropMutex(op, f, next) => On(s, t, if next.ToWindow? then Window(op, f) else End(op), file.(mutex := None))
    case DropMutexFirst(op, f) => On(s, t, DropOrderingLast(op, f), file.(mutex := None))
    case _ => On(s, t, Idle, file.(ordering := None))
  }

  /** The second critical section: a reader signals when it is the last, a writer wakes everybody. */
  function Updated(s: State, t: Tid, woken: Option<Tid>): State
    requires Enabled(s, t, Update(woken))
  {
    var op, f := s.threads[t].op, s.threads[t].f;
    var file := s.files[f];
    if op.Read? then
      On(s, t, DropMutex(op, f, ToEnd), file.(activeReaders := file.activeReaders - 1))
        .(threads := WakeOne(s.threads, woken)[t := DropMutex(op, f, ToEnd)])
    else
      On(s, t, DropMutex(op, f, ToEnd), file.(isBeingWritten := false))
        .(threads := WakeAll(s.threads, f)[t := DropMutex(op, f, ToEnd)])
  }

  /** The state after an action. */
  function After(s: State, t: Tid, a: Action): State
    requires Enabled(s, t, a)
  {
    var pc := s.threads[t];
    match a
    case Start(op) => At(s, t, WantStore(op))
    case GetStore => At(s, t, HaveStore(pc.op)).(store := Some(t))
    case Pick(f) => At(s, t, WantOrdering(pc.op, f))
    case GiveUp => At(s, t, Idle).(store := None)
    case Create => At(s, t, Fin(Open)).(files := s.files + [File(true, None, None, 0, false)])
    case GetOrdering => On(s, t, WantMutex(pc.op, pc.f), s.files[pc.f].(ordering := Some(t)))
    case GetMutex =>
      On(s, t, if pc.Waking? then Loop(pc.op, pc.f) else if Keeps(pc.op) then Entry(pc.op, pc.f) else Got(pc.op, pc.f),
         s.files[pc.f].(mutex := Some(t)))
    case DropStore => At(s, t, Entry(pc.op, pc.f)).(store := None)
    case Deny => At(s, t, DropOrdering(pc.op, pc.f, ToEnd))
    case Admit =>
      if pc.op.Write? && s.files[pc.f].isBeingWritten then s.(aborted := true)
      else At(s, t, if pc.op.Read? || pc.op.Write? then Loop(pc.op, pc.f) else DropOrdering(pc.op, pc.f, ToEnd))
    case Turn =>
      if MustWait(pc.op, s.files[pc.f]) then On(s, t, Parked(pc.op, pc.f), s.files[pc.f].(mutex := None))
      else Pass(s, t)
    case Queue => At(s, t, DropMutexFirst(pc.op, pc.f))
    case Release => Released(s, t)
    case Evict(g) => At(s, t, WantOrdering(Destroy(Some(pc.f)), g))
    case Leave => On(s, t, Out(pc.op, pc.f), s.files[pc.f].(mutex := Some(t)))
    case Update(woken) => Updated(s, t, woken)
    case Finish => At(s, t, Idle).(store := None)
    case Spurious => At(s, t, Waking(pc.op, pc.f))
  }
}
