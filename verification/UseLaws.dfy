/** What a file records of its use, over whole runs: when it was last used, how often, and who has it open. */
module UseLaws {
  import opened Prelude
  import opened StoreModel
  import opened StoreInvariant
  import opened HandlerLaws
  import opened StoreRefinement
  import opened StoreRuns
  import opened EvictionLaws
  import opened WaiterLaws
  import opened Departure

  /** A call that finds the file and uses it: a write that is too big and an unlock by another client count as well. */
  predicate Uses(c: Call, reply: Reply) {
    match c.req
    case ReqRead(_) => reply.Content?
    case ReqWrite(_, _) => reply == Done || reply == Failed(E2Big)
    case ReqLock(_) => reply == Done
    case ReqUnlock(_) => reply == Done || reply == Failed(EAcces)
    case ReqClose(_) => reply == Done
    case _ => false
  }

  // ---------------------------------------------------------------- the last use

  /** The time of the last use of `p` since its creation, or 0. */
  ghost function LastUse(s: Store, calls: seq<Call>, p: Path): int
    decreases |calls|
  {
    if calls == [] then 0
    else
      var n := |calls| - 1;
      var c, r := calls[n], Last(s, calls);
      if p in Paths(r.destroyed) || (Creates(c, r.reply) && c.req.path == p) then 0
      else if Target(c.req) == p && Uses(c, r.reply) then c.now
      else LastUse(s, calls[..n], p)
  }

  // ---------------------------------------------------------------- the number of uses

  /** All counts start again with a write that succeeds, and with a creation that evicts. */
  predicate RestartsCounts(c: Call, reply: Reply, evicts: bool) {
    (c.req.ReqWrite? && reply == Done) || (Creates(c, reply) && evicts)
  }

  /** How often `p` has been used since its creation and since counts last started again. */
  ghost function UseCount(s: Store, calls: seq<Call>, p: Path): nat
    decreases |calls|
  {
    if calls == [] then 0
    else
      var n := |calls| - 1;
      var c, r := calls[n], Last(s, calls);
      if p in Paths(r.destroyed) || (Creates(c, r.reply) && c.req.path == p) then 0
      else if RestartsCounts(c, r.reply, r.destroyed != []) then 0
      else UseCount(s, calls[..n], p) + One(Target(c.req) == p && Uses(c, r.reply))
  }

  // ---------------------------------------------------------------- openers

  /** What a call does to the number of times that `w` has `p` open. */
  function OpensAfter(before: nat, c: Call, reply: Reply, p: Path, w: Fd): nat {
    if c.fd != w || reply != Done then before
    else if c.req.ReqOpen? && c.req.path == p then before + 1
    else if ((c.req.ReqClose? && c.req.path == p) || c.req.ReqExit?) && before > 0 then before - 1
    else before
  }

  /** How often `w` has opened `p`, by its creation or afterwards, and has not closed it by a close or by leaving. */
  ghost function OpenCount(s: Store, calls: seq<Call>, p: Path, w: Fd): nat
    decreases |calls|
  {
    if calls == [] then 0
    else
      var n := |calls| - 1;
      var c, r := calls[n], Last(s, calls);
      if p in Paths(r.destroyed) then 0
      else if Creates(c, r.reply) && c.req.path == p then One(c.fd == w)
      else OpensAfter(OpenCount(s, calls[..n], p, w), c, r.reply, p, w)
  }

  // ---------------------------------------------------------------- one step

  lemma EffectOnUse(e: Option<Entry>, p: Path, c: Call, reply: Reply, destroyed: set<Path>)
    requires p != [] && p !in destroyed && !(Creates(c, reply) && c.req.path == p)
    requires reply.Content? ==> c.req.ReqRead?
    requires reply.Done? ==> !c.req.ReqRead?
    requires c.req.ReqOpen? && destroyed != {} ==> c.req.create
    requires Effect(e, p, c, reply, destroyed).Some?
    ensures e.Some?
    ensures var e', used := Effect(e, p, c, reply, destroyed).value, Target(c.req) == p && Uses(c, reply);
      && e'.used == (if used then c.now else e.value.used)
      && e'.uses == if RestartsCounts(c, reply, destroyed != {}) then 0 else e.value.uses + One(used)
  {
    hide RemoveFirst;
  }

  lemma EffectOnOpens(e: Option<Entry>, p: Path, c: Call, reply: Reply, destroyed: set<Path>, w: Fd)
    requires p != [] && p !in destroyed && !(Creates(c, reply) && c.req.path == p)
    requires reply.Content? ==> c.req.ReqRead?
    requires Effect(e, p, c, reply, destroyed).Some?
    ensures e.Some?
    ensures Count(Effect(e, p, c, reply, destroyed).value.opens, w)
      == OpensAfter(Count(e.value.opens, w), c, reply, p, w)
  {
    hide RemoveFirst, Count;
    CountOfAppend(e.value.opens, [c.fd], w);
    assert Count([c.fd], w) == One(c.fd == w) by {
      CountOfSingle(c.fd, w);
    }
    CountAfterRemoval(e.value.opens, c.fd, w);
    CountIsPositive(e.value.opens, w);
  }

  lemma CountOfSingle(x: Fd, w: Fd)
    ensures Count([x], w) == One(x == w)
  {
    assert Count([x], w) == One(x == w) + Count([], w);
  }

  lemma CreatedEntry(s: Store, c: Call)
    requires Inv(s) && Creates(c, Step(s, c).reply)
    ensures c.req.path !in Paths(Step(s, c).destroyed) && c.req.path != []
    ensures View(Step(s, c).store.files, c.req.path) == Some(FreshEntry(c.req.lock, c.fd))
  {
    hide Step, Inv;
    CreatedIsNotDestroyed(s, c);
    StepRefines(s, c, c.req.path);
  }

  lemma NoPathDestroyed(files: seq<File>)
    ensures Paths(files) == {} <==> files == []
  {
    if files != [] {
      assert files[0].path in Paths(files);
    }
  }

  lemma RepliesOfKind(s: Store, c: Call)
    ensures Step(s, c).reply.Content? ==> c.req.ReqRead?
    ensures Step(s, c).reply.Done? ==> !c.req.ReqRead?
    ensures c.req.ReqOpen? && Step(s, c).destroyed != [] ==> c.req.create
  {
    hide IndexOf, Victim, EvictOne, EvictUntilFits, Replace, RemoveFirst;
  }

  /** What the entry of `p` records, after a run. */
  ghost predicate Records(e: Entry, s: Store, calls: seq<Call>, p: Path, w: Fd) {
    e.used == LastUse(s, calls, p) && e.uses == UseCount(s, calls, p) && Count(e.opens, w) == OpenCount(s, calls, p, w)
  }

  lemma StepRecords(s: Store, calls: seq<Call>, p: Path, w: Fd)
    requires calls != [] && p != []
    requires var before := After(s, calls[..|calls| - 1]);
      && Inv(before)
      && (View(before.files, p).Some? ==> Records(View(before.files, p).value, s, calls[..|calls| - 1], p, w))
    requires View(After(s, calls).files, p).Some?
    ensures Records(View(After(s, calls).files, p).value, s, calls, p, w)
  {
    hide Step, Inv, Effect, View, Uses, Count, RestartsCounts, OpensAfter;
    var n := |calls| - 1;
    var before, c, r := After(s, calls[..n]), calls[n], Last(s, calls);
    StepRefines(before, c, p);
    RepliesOfKind(before, c);
    NoPathDestroyed(r.destroyed);
    assert p !in Paths(r.destroyed) by {
      DestroyedHasNone(View(before.files, p), p, c, r.reply, Paths(r.destroyed));
    }
    if Creates(c, r.reply) && c.req.path == p {
      CreatedEntry(before, c);
      CountOfSingle(c.fd, w);
    } else {
      EffectOnUse(View(before.files, p), p, c, r.reply, Paths(r.destroyed));
      EffectOnOpens(View(before.files, p), p, c, r.reply, Paths(r.destroyed), w);
    }
  }

  lemma DestroyedHasNone(e: Option<Entry>, p: Path, c: Call, reply: Reply, destroyed: set<Path>)
    requires Effect(e, p, c, reply, destroyed).Some?
    ensures p !in destroyed
  {
  }

  // ---------------------------------------------------------------- over every run

  /**
    Over every run, the time that a file records is that of its last use, the count is the number of its uses since
    counts last started again, and every client is listed as an opener as often as it has opened the file and not yet
    closed it.
  */
  lemma {:induction false} RecordsAreRight(s: Store, calls: seq<Call>, p: Path, w: Fd)
    requires Inv(s) && s.files == [] && Proper(s, calls)
    ensures View(After(s, calls).files, p).Some? ==> Records(View(After(s, calls).files, p).value, s, calls, p, w)
    decreases |calls|
  {
    hide Step, Inv, Records, View;
    if p == [] {
      RunKeepsInv(s, calls);
      NoEntryOfNone(After(s, calls));
    } else if calls == [] {
      assert View(s.files, p).None? by {
        NothingStored(p);
      }
    } else {
      var n := |calls| - 1;
      ProperPrefix(s, calls, n);
      RunKeepsInv(s, calls[..n]);
      RecordsAreRight(s, calls[..n], p, w);
      if View(After(s, calls).files, p).Some? {
        StepRecords(s, calls, p, w);
      }
    }
  }

  lemma NothingStored(p: Path)
    ensures View([], p).None?
  {
  }

  lemma NoEntryOfNone(s: Store)
    requires Inv(s)
    ensures View(s.files, []).None?
  {
    NoEmptyPath(s);
  }

  /** A client may read or write exactly if nobody else holds the file and it has opened it and not closed it. */
  lemma AccessibleIff(s: Store, calls: seq<Call>, p: Path, w: Fd)
    requires Inv(s) && s.files == [] && Proper(s, calls) && View(After(s, calls).files, p).Some?
    ensures var e := View(After(s, calls).files, p).value;
      e.Accessible(w) <==> (e.holder == 0 || e.holder == w) && OpenCount(s, calls, p, w) > 0
  {
    RecordsAreRight(s, calls, p, w);
    CountIsPositive(View(After(s, calls).files, p).value.opens, w);
  }

  /**
    Over every run: what a write destroys was stored before what it leaves, or last used no later, or used no more
    often, as the algorithm of the store has it. Only the file being written is not weighed.
  */
  lemma VictimsByHistory(s: Store, calls: seq<Call>, c: Call, p: Path, q: Path)
    requires Inv(s) && s.files == [] && Proper(s, calls) && c.req.ReqWrite?
    requires p in Paths(Step(After(s, calls), c).destroyed)
    requires Has(After(s, calls).files, q) && q != c.req.path && q !in Paths(Step(After(s, calls), c).destroyed)
    ensures match After(s, calls).algo
      case Fifo => IndexOf(After(s, calls).files, p) < IndexOf(After(s, calls).files, q)
      case Lru => LastUse(s, calls, p) <= LastUse(s, calls, q)
      case Lfu => UseCount(s, calls, p) <= UseCount(s, calls, q)
  {
    hide Step, LastUse, UseCount, Inv, Paths, After;
    var now := After(s, calls);
    RunKeepsInv(s, calls);
    var f := FileOfPath(Step(now, c).destroyed, p);
    var g := now.files[IndexOf(now.files, q)];
    assert g !in Step(now, c).destroyed by {
      NotAmongPaths(Step(now, c).destroyed, g);
    }
    WriteEvictsByAlgorithm(now, c, f, g);
    StoredEntry(now, f);
    RecordsAreRight(s, calls, p, 0);
    RecordsAreRight(s, calls, q, 0);
  }

  lemma FileOfPath(files: seq<File>, p: Path) returns (f: File)
    requires p in Paths(files)
    ensures f in files && f.path == p
  {
    f :| f in files && f.path == p;
  }

  lemma NotAmongPaths(files: seq<File>, g: File)
    requires g.path !in Paths(files)
    ensures g !in files
  {
  }

  lemma StoredEntry(s: Store, f: File)
    requires Inv(s) && f in s.files
    ensures View(s.files, f.path) == Some(EntryOf(f))
  {
    var k :| 0 <= k < |s.files| && s.files[k] == f;
    IndexIsUnique(s.files, k);
  }
}
