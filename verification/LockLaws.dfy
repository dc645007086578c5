/** What a lock protects, and what may destroy a file. */
module LockLaws {
  import opened Prelude
  import RunLength
  import opened StoreModel
  import opened StoreInvariant
  import opened Eviction
  import opened StoreRefinement

  // ---------------------------------------------------------------- what a lock protects

  lemma DestroyedByRewrite(s: Store, i: nat, data: seq<Byte>, size: nat, p: Path)
    requires DistinctPaths(s.files) && i < |s.files| && p in Paths(Rewrite(s, i, data, size).destroyed)
    ensures Has(s.files, p) && p != s.files[i].path
  {
    hide EvictUntilFits, Replace, IndexOf;
    var g :| g in Rewrite(s, i, data, size).destroyed && g.path == p;
    VictimWasStored(s, s.files[i].path, size - s.files[i].contentSize, g);
    MemberIsFound(s.files, g);
  }

  lemma VictimWasStored(s: Store, spare: Path, growth: int, g: File)
    requires DistinctPaths(s.files) && g in EvictUntilFits(s, spare, growth).1
    ensures g in s.files && g.path != spare
  {
    LoopSplits(s, spare, growth);
  }

  lemma MemberIsFound(files: seq<File>, g: File)
    requires g in files
    ensures Has(files, g.path)
  {
    var k :| 0 <= k < |files| && files[k] == g;
    assert files[k].path == g.path;
  }

  lemma DestroyedByWrite(s: Store, c: Call, p: Path)
    requires Inv(s) && c.req.ReqWrite? && p in Paths(Step(s, c).destroyed)
    ensures Has(s.files, p) && c.fd > 0 && c.req.path != p
  {
    hide EvictUntilFits, Replace, RunLength.Encode;
    var i := IndexOf(s.files, c.req.path);
    assert WriteAllowed(s, c);
    var t, size := Touched(s, i, c.now), |RunLength.Encode(s.files[i].bytes + c.req.data)|;
    assert Step(s, c) == Rewrite(t, i, c.req.data, size);
    TouchedKeeps(s, i, c.now, p);
    DestroyedByRewrite(t, i, c.req.data, size, p);
    SameIndex(t.files, s.files, p);
  }

  /** A file is destroyed only by its removal, or by the eviction that a creation or a write of another file needs. */
  lemma DestroyedWhen(s: Store, c: Call, p: Path)
    requires Inv(s) && p in Paths(Step(s, c).destroyed)
    ensures Has(s.files, p) && c.fd > 0
    ensures (c.req.ReqRemove? && Target(c.req) == p && View(s.files, p).value.holder == c.fd)
         || ((c.req.ReqWrite? || (c.req.ReqOpen? && c.req.create)) && Target(c.req) != p)
  {
    if c.req.ReqWrite? {
      DestroyedByWrite(s, c, p);
    } else if c.req.ReqOpen? {
      var v := Victim(s.files, s.algo, []);
      assert Step(s, c).destroyed == [s.files[v]];
      assert s.files[v].path == p;
    } else {
      assert c.req.ReqRemove?;
      assert Step(s, c).destroyed == [s.files[IndexOf(s.files, c.req.path)]];
    }
  }

  /**
    While a client holds a file, no request of another client changes its bytes, takes the lock or removes it, and
    each request that names the file is refused or made to wait, but for opening and closing it. Only the replacement
    algorithm can destroy it. Its content still shows in listings, which name no file, and in what is sent back for
    an evicted file: Disclosure.dfy says exactly when.
  */
  lemma LockProtects(s: Store, c: Call, p: Path)
    requires Inv(s) && View(s.files, p).Some?
    requires View(s.files, p).value.holder !in {0, c.fd}
    ensures var e, e' := View(s.files, p), View(Step(s, c).store.files, p);
      e'.Some? ==> e'.value.bytes == e.value.bytes && e'.value.holder == e.value.holder
    ensures View(Step(s, c).store.files, p).None? ==>
      (c.req.ReqWrite? || (c.req.ReqOpen? && c.req.create)) && Target(c.req) != p
    ensures p == Target(c.req) && !c.req.ReqReadN? ==> !Step(s, c).reply.Content?
    ensures p == Target(c.req) && c.fd > 0 ==>
      match c.req
      case ReqOpen(_, create, lock) =>
        Step(s, c).reply == if create then Failed(EPerm) else if lock then Failed(EAcces) else Done
      case ReqLock(_) => Step(s, c).reply == Waiting
      case ReqClose(_) => Step(s, c).reply == Done
      case ReqTest(_) => Step(s, c).reply.Answer?
      case _ => Step(s, c).reply == Failed(EAcces)
  {
    hide Step;
    StepRefines(s, c, p);
    NoEmptyPath(s);
    if View(Step(s, c).store.files, p).None? {
      DestroyedWhen(s, c, p);
    }
  }

  // ---------------------------------------------------------------- how a lock changes hands

  lemma CreatedHolder(s: Store, c: Call)
    requires Inv(s) && c.req.ReqOpen? && c.req.create && Step(s, c).reply.Done?
    requires View(Step(s, c).store.files, c.req.path).Some?
    ensures View(Step(s, c).store.files, c.req.path).value.holder == if c.req.lock then c.fd else 0
    ensures View(Step(s, c).store.files, c.req.path).value.queue == []
  {
    hide Step, Inv;
    StepRefines(s, c, c.req.path);
    NoEmptyPath(s);
  }

  /**
    What a request does to the lock of the file it names: a creation or an opening with the lock and a lock request
    that succeed give it to the client, a lock request that has to wait adds the client to the queue, and an unlock
    gives it to the first in the queue, or to nobody. Nothing else that names the file does anything to it.
  */
  lemma LockChangesHands(s: Store, c: Call)
    requires Inv(s) && !c.req.ReqReadN? && !c.req.ReqExit? && !c.req.ReqRemove?
    requires View(s.files, c.req.path).Some? && View(Step(s, c).store.files, c.req.path).Some?
    ensures var e, e' := View(s.files, c.req.path).value, View(Step(s, c).store.files, c.req.path).value;
      var reply := Step(s, c).reply;
      if c.req.ReqLock? && reply.Done? then e'.holder == c.fd && e'.queue == e.queue
      else if c.req.ReqLock? && reply.Waiting? then e'.holder == e.holder && e'.queue == e.queue + [c.fd]
      else if c.req.ReqOpen? && c.req.lock && reply.Done? then e'.holder == c.fd && e'.queue == e.queue
      else if c.req.ReqUnlock? && reply.Done? && e.queue == [] then e'.holder == 0 && e'.queue == []
      else if c.req.ReqUnlock? && reply.Done? then e'.holder == e.queue[0] && e'.queue == e.queue[1..]
      else e'.holder == e.holder && e'.queue == e.queue
  {
    hide Step, FilesOk, RemoveFirst;
    StepRefines(s, c, c.req.path);
    NoEmptyPath(s);
  }
}
