/**
  Any number of producers and consumers around one bounded buffer of src/boundedbuffer.c. Taking and releasing
  the mutex, waiting, waking and each critical section are steps of their own, and wake-ups may be spurious.
*/
module BufferProtocol {
  import opened Prelude
  import opened BoundedBuffer

  type Tid = nat

  datatype Pc<T> =
    | Idle
    | WantPut(x: T)
    | Putting(x: T)
    | PutParked(x: T)
    | PutWaking(x: T)
    | WantTake
    | Taking
    | TakeParked
    | TakeWaking
    | Done

  /** `enqueued` and `dequeued` record every element that ever went in and came out, in order. */
  datatype State<T> = State(
    capacity: nat,
    mutex: Option<Tid>,
    contents: seq<T>,
    threads: seq<Pc<T>>,
    enqueued: seq<T>,
    dequeued: seq<T>)

  datatype Action<T> = StartPut(x: T) | StartTake | GetMutex | Turn | Unlock | Spurious

  predicate Holds<T(!new)>(pc: Pc<T>) {
    pc.Putting? || pc.Taking? || pc.Done?
  }

  predicate Enabled<T(!new)>(s: State<T>, t: Tid, a: Action<T>) {
    && t < |s.threads|
    && match a
       case StartPut(_) => s.threads[t].Idle?
       case StartTake => s.threads[t].Idle?
       case GetMutex =>
         && s.mutex.None?
         && (s.threads[t].WantPut? || s.threads[t].PutWaking? || s.threads[t].WantTake? || s.threads[t].TakeWaking?)
       case Turn => s.threads[t].Putting? || s.threads[t].Taking?
       case Unlock => s.threads[t].Done?
       case Spurious => s.threads[t].PutParked? || s.threads[t].TakeParked?
  }

  /** Broadcast to the consumers. */
  function WakeTakers<T>(threads: seq<Pc<T>>): (r: seq<Pc<T>>)
    ensures |r| == |threads| && forall u :: 0 <= u < |r| ==>
      r[u] == if threads[u].TakeParked? then TakeWaking else threads[u]
  {
    seq(|threads|, u requires 0 <= u < |threads| => if threads[u].TakeParked? then TakeWaking else threads[u])
  }

  /** Broadcast to the producers. */
  function WakePutters<T>(threads: seq<Pc<T>>): (r: seq<Pc<T>>)
    ensures |r| == |threads| && forall u :: 0 <= u < |r| ==>
      r[u] == if threads[u].PutParked? then PutWaking(threads[u].x) else threads[u]
  {
    seq(|threads|, u requires 0 <= u < |threads| =>
      if threads[u].PutParked? then PutWaking(threads[u].x) else threads[u])
  }

  function PutTurn<T>(s: State<T>, t: Tid): State<T>
    requires t < |s.threads| && s.threads[t].Putting?
  {
    var x := s.threads[t].x;
    if |s.contents| == s.capacity then s.(mutex := None, threads := s.threads[t := PutParked(x)])
    else
      var contents := s.contents + [x];
      var threads := if WakesConsumers(contents) then WakeTakers(s.threads) else s.threads;
      s.(contents := contents, threads := threads[t := Done], enqueued := s.enqueued + [x])
  }

  function TakeTurn<T>(s: State<T>, t: Tid): State<T>
    requires t < |s.threads| && s.threads[t].Taking?
  {
    if s.contents == [] then s.(mutex := None, threads := s.threads[t := TakeParked])
    else
      var contents := s.contents[1..];
      var threads := if WakesProducers(contents, s.capacity) then WakePutters(s.threads) else s.threads;
      s.(contents := contents, threads := threads[t := Done], dequeued := s.dequeued + [s.contents[0]])
  }

  function After<T(!new)>(s: State<T>, t: Tid, a: Action<T>): State<T>
    requires Enabled(s, t, a)
  {
    var pc := s.threads[t];
    match a
    case StartPut(x) => s.(threads := s.threads[t := WantPut(x)])
    case StartTake => s.(threads := s.threads[t := WantTake])
    case GetMutex =>
      var pc' := if pc.WantPut? || pc.PutWaking? then Putting(pc.x) else Taking;
      s.(mutex := Some(t), threads := s.threads[t := pc'])
    case Turn => if pc.Putting? then PutTurn(s, t) else TakeTurn(s, t)
    case Unlock => s.(mutex := None, threads := s.threads[t := Idle])
    case Spurious => s.(threads := s.threads[t := if pc.PutParked? then PutWaking(pc.x) else TakeWaking])
  }

  // ---------------------------------------------------------------- the invariant

  ghost predicate ThreadOk<T(!new)>(s: State<T>, t: Tid)
    requires t < |s.threads|
  {
    && (Holds(s.threads[t]) <==> s.mutex == Some(t))
    && (s.threads[t].TakeParked? ==> s.contents == [])
    && (s.threads[t].PutParked? ==> |s.contents| == s.capacity)
  }

  ghost predicate Inv<T(!new)>(s: State<T>) {
    && 0 < s.capacity && |s.contents| <= s.capacity
    && s.enqueued == s.dequeued + s.contents
    && (s.mutex.Some? ==> s.mutex.value < |s.threads|)
    && forall t {:trigger ThreadOk(s, t)} :: 0 <= t < |s.threads| ==> ThreadOk(s, t)
  }

  /** Every step keeps the invariant, whatever the interleaving. */
  lemma StepKeepsInv<T(!new)>(s: State<T>, t: Tid, a: Action<T>)
    requires Inv(s) && Enabled(s, t, a)
    ensures Inv(After(s, t, a))
  {
    var s' := After(s, t, a);
    assert ThreadOk(s, t);
    forall u | 0 <= u < |s'.threads| ensures ThreadOk(s', u) {
      assert ThreadOk(s, u);
    }
    if a.Turn? && s.threads[t].Putting? {
      ConcatAssociates(s.dequeued, s.contents, [s.threads[t].x]);
    } else if a.Turn? && s.contents != [] {
      ConcatAssociates(s.dequeued, [s.contents[0]], s.contents[1..]);
      assert [s.contents[0]] + s.contents[1..] == s.contents;
    }
  }

  datatype Event<T> = Event(t: Tid, a: Action<T>)

  ghost predicate IsRun<T(!new)>(s: State<T>, events: seq<Event<T>>)
    decreases |events|
  {
    events == [] || (Enabled(s, events[0].t, events[0].a) && IsRun(After(s, events[0].t, events[0].a), events[1..]))
  }

  ghost function Reached<T(!new)>(s: State<T>, events: seq<Event<T>>): State<T>
    requires IsRun(s, events)
    decreases |events|
  {
    if events == [] then s else Reached(After(s, events[0].t, events[0].a), events[1..])
  }

  function Initial<T>(capacity: nat, n: nat): State<T> {
    State(capacity, None, [], seq(n, _ => Idle), [], [])
  }

  lemma {:induction false} RunKeepsInv<T(!new)>(s: State<T>, events: seq<Event<T>>)
    requires Inv(s) && IsRun(s, events)
    ensures Inv(Reached(s, events))
    decreases |events|
  {
    hide Inv, Enabled, After;
    if events != [] {
      StepKeepsInv(s, events[0].t, events[0].a);
      RunKeepsInv(After(s, events[0].t, events[0].a), events[1..]);
    }
  }

  /**
    Over every run: the buffer never holds more than its capacity; what came out is a prefix of what went in; no
    consumer stays parked unless the buffer is empty, and no producer unless it is full.
  */
  lemma QueueIsFaithful<T(!new)>(capacity: nat, n: nat, events: seq<Event<T>>, t: Tid)
    requires capacity > 0 && IsRun(Initial<T>(capacity, n), events)
    ensures var s := Reached(Initial<T>(capacity, n), events);
      && |s.contents| <= s.capacity && s.enqueued == s.dequeued + s.contents && s.dequeued <= s.enqueued
      && (t < |s.threads| && s.threads[t].TakeParked? ==> s.contents == [])
      && (t < |s.threads| && s.threads[t].PutParked? ==> |s.contents| == s.capacity)
  {
    hide IsRun, Reached;
    var s := Reached(Initial<T>(capacity, n), events);
    InitialInv<T>(capacity, n);
    RunKeepsInv(Initial<T>(capacity, n), events);
    if t < |s.threads| {
      assert ThreadOk(s, t);
    }
  }

  lemma InitialInv<T(!new)>(capacity: nat, n: nat)
    requires capacity > 0
    ensures Inv(Initial<T>(capacity, n))
  {
  }

  // ---------------------------------------------------------------- progress

  /** A step that is neither a new call nor a spurious wake-up. */
  predicate Moves<T(!new)>(s: State<T>, t: Tid, a: Action<T>) {
    Enabled(s, t, a) && (a.GetMutex? || a.Turn? || a.Unlock?)
  }

  /** Whoever is neither idle nor parked can go on, or the holder of the mutex can. */
  lemma SomebodyMoves<T(!new)>(s: State<T>, t: Tid) returns (u: Tid, a: Action<T>)
    requires Inv(s) && t < |s.threads| && !s.threads[t].Idle? && !s.threads[t].PutParked? && !s.threads[t].TakeParked?
    ensures Moves(s, u, a)
  {
    assert ThreadOk(s, t);
    if s.mutex.None? {
      return t, GetMutex;
    }
    u := s.mutex.value;
    assert ThreadOk(s, u);
    a := if s.threads[u].Done? then Unlock else Turn;
  }

  /** Producers and consumers never wait for each other at the same time. */
  lemma OnlyOneSideWaits<T(!new)>(s: State<T>, t: Tid, u: Tid)
    requires Inv(s) && t < |s.threads| && u < |s.threads| && s.threads[t].TakeParked?
    ensures !s.threads[u].PutParked?
  {
    assert ThreadOk(s, t) && ThreadOk(s, u);
  }
}
