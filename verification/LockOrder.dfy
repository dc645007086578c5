/** Locks are granted in the order in which clients asked for them, over whole runs. */
module LockOrder {
  import opened Prelude
  import opened StoreModel
  import opened StoreInvariant
  import opened HandlerLaws
  import opened StoreRefinement
  import opened WaiterLaws

  /** `x` is somewhere ahead of `y` in the queue. */
  ghost predicate Ahead(queue: seq<Fd>, x: Fd, y: Fd) {
    exists a, b :: 0 <= a < b < |queue| && queue[a] == x && queue[b] == y
  }

  lemma AheadInTail(queue: seq<Fd>, x: Fd, y: Fd)
    requires Ahead(queue, x, y)
    ensures Ahead(queue[1..], x, y) || (queue[0] == x && y in queue[1..])
  {
    var a, b :| 0 <= a < b < |queue| && queue[a] == x && queue[b] == y;
    assert queue[1..][b - 1] == y;
    assert a > 0 ==> queue[1..][a - 1] == x;
  }

  lemma AheadInLonger(queue: seq<Fd>, z: Fd, x: Fd, y: Fd)
    requires Ahead(queue, x, y)
    ensures Ahead(queue + [z], x, y)
  {
    var a, b :| 0 <= a < b < |queue| && queue[a] == x && queue[b] == y;
    assert (queue + [z])[a] == x && (queue + [z])[b] == y;
  }

  /** All that a step can do to a queue: nothing, a newcomer at the end, or the head taken out to be the holder. */
  lemma QueueMoves(e: Entry, p: Path, c: Call, reply: Reply, destroyed: set<Path>)
    requires c.fd !in e.queue && !(p == Target(c.req) && c.req.ReqOpen? && c.req.create && reply.Done?)
    requires p !in destroyed
    ensures Effect(Some(e), p, c, reply, destroyed).Some?
    ensures var e' := Effect(Some(e), p, c, reply, destroyed).value;
      || e'.queue == e.queue
      || e'.queue == e.queue + [c.fd]
      || (e.queue != [] && e'.queue == e.queue[1..] && e'.holder == e.queue[0])
  {
    hide RemoveFirst;
    NotThere(e.queue, c.fd);
    if e.queue != [] {
      assert e.queue == [e.queue[0]] + e.queue[1..];
      NotThere(e.queue[1..], c.fd);
    }
  }

  /** One step never lets `y` pass `x`: both go on waiting in order, or `x` gets the lock while `y` waits. */
  lemma EffectKeepsOrder(e: Entry, p: Path, c: Call, reply: Reply, destroyed: set<Path>, x: Fd, y: Fd)
    requires c.fd !in e.queue && !(p == Target(c.req) && c.req.ReqOpen? && c.req.create && reply.Done?)
    requires p !in destroyed && Ahead(e.queue, x, y)
    ensures Effect(Some(e), p, c, reply, destroyed).Some?
    ensures var e' := Effect(Some(e), p, c, reply, destroyed).value;
      Ahead(e'.queue, x, y) || (e'.holder == x && y in e'.queue)
  {
    QueueMoves(e, p, c, reply, destroyed);
    AheadInTail(e.queue, x, y);
    AheadInLonger(e.queue, c.fd, x, y);
  }

  lemma StepKeepsOrder(s: Store, c: Call, p: Path, x: Fd, y: Fd)
    requires Inv(s) && Admissible(s, c)
    requires View(s.files, p).Some? && View(Step(s, c).store.files, p).Some?
    requires Ahead(View(s.files, p).value.queue, x, y)
    ensures var e' := View(Step(s, c).store.files, p).value;
      Ahead(e'.queue, x, y) || (e'.holder == x && y in e'.queue)
  {
    StepRefines(s, c, p);
    NoRecreation(s, c, p);
    NotInQueue(s, p, c.fd);
    EffectKeepsOrder(View(s.files, p).value, p, c, Step(s, c).reply, Paths(Step(s, c).destroyed), x, y);
  }

  ghost function EntryAt(s: Store, calls: seq<Call>, p: Path, k: nat): Option<Entry>
    requires k <= |calls|
  {
    View(After(s, calls[..k]).files, p)
  }

  /** The file exists all through the run. */
  ghost predicate Lives(s: Store, calls: seq<Call>, p: Path) {
    forall k :: 0 <= k <= |calls| ==> EntryAt(s, calls, p, k).Some?
  }

  /** At some point of the run `x` holds the lock and `y` still waits for it. */
  ghost predicate ServedFirst(s: Store, calls: seq<Call>, p: Path, x: Fd, y: Fd) {
    exists k :: 0 <= k <= |calls| && EntryAt(s, calls, p, k).Some?
      && EntryAt(s, calls, p, k).value.holder == x && y in EntryAt(s, calls, p, k).value.queue
  }

  /**
    First come, first served: over any run during which the file exists, a client that was ahead of another
    either still is, or has held the lock while the other was still waiting.
  */
  lemma {:induction false} NoOvertaking(s: Store, calls: seq<Call>, p: Path, x: Fd, y: Fd)
    requires Inv(s) && Proper(s, calls) && Lives(s, calls, p)
    requires View(s.files, p).Some? && Ahead(View(s.files, p).value.queue, x, y)
    ensures EntryAt(s, calls, p, |calls|).Some?
    ensures Ahead(EntryAt(s, calls, p, |calls|).value.queue, x, y) || ServedFirst(s, calls, p, x, y)
    decreases |calls|
  {
    hide Step, Inv, Ahead, View;
    var n := |calls| - 1;
    assert calls[..|calls|] == calls;
    if calls != [] {
      forall k | 0 <= k <= n ensures EntryAt(s, calls[..n], p, k) == EntryAt(s, calls, p, k) {
        assert calls[..n][..k] == calls[..k];
      }
      ProperPrefix(s, calls, n);
      NoOvertaking(s, calls[..n], p, x, y);
      RunKeepsInv(s, calls[..n]);
      assert EntryAt(s, calls, p, n) == View(After(s, calls[..n]).files, p);
      assert EntryAt(s, calls, p, n + 1) == View(Step(After(s, calls[..n]), calls[n]).store.files, p);
      if Ahead(EntryAt(s, calls, p, n).value.queue, x, y) {
        StepKeepsOrder(After(s, calls[..n]), calls[n], p, x, y);
      }
    }
  }
}
