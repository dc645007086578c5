/** The list is kept in order of creation, and failures change nothing a client can tell. */
module StoreOrder {
  import opened Prelude
  import RunLength
  import opened StoreModel
  import opened StoreInvariant
  import opened Eviction
  import opened HandlerLaws
  import opened StoreRefinement
  import opened StoreRuns

  // ---------------------------------------------------------------- order of creation

  /** Two files that are in both lists stand in the same order in both. */
  ghost predicate SameOrder(before: seq<File>, after: seq<File>, p: Path, q: Path) {
    Has(before, p) && Has(before, q) && Has(after, p) && Has(after, q) && IndexOf(after, p) < IndexOf(after, q)
    ==> IndexOf(before, p) < IndexOf(before, q)
  }

  lemma SameOrderOfSamePaths(before: seq<File>, after: seq<File>, p: Path, q: Path)
    requires |before| == |after| && forall k :: 0 <= k < |before| ==> after[k].path == before[k].path
    ensures SameOrder(before, after, p, q)
  {
    SameIndex(before, after, p);
    SameIndex(before, after, q);
  }

  lemma SameOrderOfRemoval(files: seq<File>, v: nat, p: Path, q: Path)
    requires v < |files| && DistinctPaths(files)
    ensures SameOrder(files, RemoveAt(files, v), p, q)
    ensures Has(RemoveAt(files, v), p) ==> Has(files, p)
  {
    var after := RemoveAt(files, v);
    if Has(after, p) {
      IndexShift(files, v, IndexOf(after, p));
    }
    if Has(after, q) {
      IndexShift(files, v, IndexOf(after, q));
    }
  }

  lemma SameOrderOfAppend(files: seq<File>, f: File, p: Path, q: Path)
    ensures SameOrder(files, files + [f], p, q)
  {
    AppendKeepsIndex(files, f, p);
    AppendKeepsIndex(files, f, q);
  }

  lemma AppendKeepsIndex(files: seq<File>, f: File, p: Path)
    ensures Has(files, p) ==> IndexOf(files + [f], p) == IndexOf(files, p)
    ensures !Has(files, p) ==> IndexOf(files + [f], p) == if f.path == p then |files| else |files| + 1
  {
    var all, i, j := files + [f], IndexOf(files, p), IndexOf(files + [f], p);
    assert forall k :: 0 <= k < |files| ==> all[k].path == files[k].path;
    assert all[|files|] == f;
  }

  lemma {:induction false} SameOrderOfEviction(s: Store, spare: Path, growth: int, p: Path, q: Path)
    requires DistinctPaths(s.files)
    ensures SameOrder(s.files, EvictUntilFits(s, spare, growth).0.files, p, q)
    ensures Has(EvictUntilFits(s, spare, growth).0.files, p) ==> Has(s.files, p)
    ensures Has(EvictUntilFits(s, spare, growth).0.files, q) ==> Has(s.files, q)
    decreases |s.files|
  {
    var v := Victim(s.files, s.algo, spare);
    if !(s.currStorageSize + growth <= s.maxStorageSize || v == |s.files|) {
      MembersAfterRemoval(s.files, v);
      SameOrderOfEviction(EvictOne(s, spare), spare, growth, p, q);
      SameOrderOfRemoval(s.files, v, p, q);
      SameOrderOfRemoval(s.files, v, q, p);
    }
  }

  lemma SameOrderOfRewrite(s: Store, i: nat, data: seq<Byte>, size: nat, p: Path, q: Path)
    requires DistinctPaths(s.files) && i < |s.files|
    requires DistinctPaths(AfterEviction(s, i, size).files) && s.files[i] in AfterEviction(s, i, size).files
    ensures SameOrder(s.files, Rewrite(s, i, data, size).store.files, p, q)
  {
    var rest, after := AfterEviction(s, i, size).files, Rewrite(s, i, data, size).store.files;
    SameOrderOfEviction(s, s.files[i].path, size - s.files[i].contentSize, p, q);
    ReplaceKeepsPaths(AfterEviction(s, i, size), s.files[i], data, size);
    SameIndex(rest, after, p);
    SameIndex(rest, after, q);
  }

  lemma ReplaceKeepsPaths(rest: Store, f: File, data: seq<Byte>, size: nat)
    requires DistinctPaths(rest.files) && f in rest.files
    ensures var after := Replace(rest, f.path, f, data, size).files;
      |after| == |rest.files| && forall k :: 0 <= k < |after| ==> after[k].path == rest.files[k].path
  {
    var k :| 0 <= k < |rest.files| && rest.files[k] == f;
    IndexIsUnique(ResetRefCounts(rest.files), k);
  }

  lemma WriteKeepsOrder(s: Store, c: Call, p: Path, q: Path)
    requires Inv(s) && c.req.ReqWrite?
    ensures SameOrder(s.files, Step(s, c).store.files, p, q)
  {
    hide EvictUntilFits, RunLength.Encode, Replace, Rewrite;
    WriteForms(s, c);
    if WriteAllowed(s, c) && !Step(s, c).reply.Failed? {
      var i := IndexOf(s.files, c.req.path);
      var t, size := Touched(s, i, c.now), |RunLength.Encode(s.files[i].bytes + c.req.data)|;
      TouchedKeeps(s, i, c.now, p);
      SurvivesOwnWrite(t, i, size);
      SameOrderOfRewrite(t, i, c.req.data, size, p, q);
      SameIndex(s.files, t.files, p);
      SameIndex(s.files, t.files, q);
    } else {
      SameOrderOfSamePaths(s.files, Step(s, c).store.files, p, q);
    }
  }

  lemma CreateKeepsOrder(s: Store, c: Call, p: Path, q: Path)
    requires Inv(s) && c.req.ReqOpen? && c.req.create && !Has(s.files, c.req.path)
    ensures SameOrder(s.files, Create(s, c.req.path, c.req.lock, c.fd, c.now).store.files, p, q)
  {
    var f, v := NewFile(c.req.path, c.req.lock, c.fd, c.now), Victim(s.files, s.algo, []);
    if s.currFileNum == s.maxFileNum && v < |s.files| {
      var rest := RemoveAt(s.files, v);
      MembersAfterRemoval(s.files, v);
      SameOrderOfRemoval(s.files, v, p, q);
      SameIndex(rest, ResetRefCounts(rest), p);
      SameIndex(rest, ResetRefCounts(rest), q);
      AppendKeepsIndex(ResetRefCounts(rest), f, p);
      AppendKeepsIndex(ResetRefCounts(rest), f, q);
    } else {
      SameOrderOfAppend(s.files, f, p, q);
    }
  }

  lemma RemoveKeepsOrder(s: Store, c: Call, p: Path, q: Path)
    requires Inv(s) && c.req.ReqRemove?
    ensures SameOrder(s.files, Step(s, c).store.files, p, q)
  {
    if Step(s, c).reply.Done? {
      SameOrderOfRemoval(s.files, IndexOf(s.files, c.req.path), p, q);
    }
  }

  lemma UseKeepsPaths(s: Store, c: Call)
    requires !c.req.ReqWrite? && !c.req.ReqOpen? && !c.req.ReqRemove?
    ensures |Step(s, c).store.files| == |s.files|
    ensures forall k :: 0 <= k < |s.files| ==> Step(s, c).store.files[k].path == s.files[k].path
  {
    hide IndexOf, RemoveFirst;
    match c.req {
      case ReqExit =>
      case ReqLock(_) =>
      case ReqUnlock(_) =>
      case _ =>
    }
  }

  lemma UseKeepsOrder(s: Store, c: Call, p: Path, q: Path)
    requires !c.req.ReqWrite? && !c.req.ReqOpen? && !c.req.ReqRemove?
    ensures SameOrder(s.files, Step(s, c).store.files, p, q)
  {
    hide Step;
    UseKeepsPaths(s, c);
    SameOrderOfSamePaths(s.files, Step(s, c).store.files, p, q);
  }

  lemma OpenKeepsOrder(s: Store, c: Call, p: Path, q: Path)
    requires Inv(s) && c.req.ReqOpen?
    ensures SameOrder(s.files, Step(s, c).store.files, p, q)
  {
    if c.req.create && Step(s, c).reply.Done? {
      CreateKeepsOrder(s, c, p, q);
    } else {
      SameOrderOfSamePaths(s.files, Step(s, c).store.files, p, q);
    }
  }

  /** Surviving files keep their order, so the list is always in order of creation. */
  lemma StepKeepsOrderOfCreation(s: Store, c: Call, p: Path, q: Path)
    requires Inv(s)
    ensures SameOrder(s.files, Step(s, c).store.files, p, q)
  {
    match c.req {
      case ReqWrite(_, _) => WriteKeepsOrder(s, c, p, q);
      case ReqOpen(_, _, _) => OpenKeepsOrder(s, c, p, q);
      case ReqRemove(_) => RemoveKeepsOrder(s, c, p, q);
      case _ => UseKeepsOrder(s, c, p, q);
    }
  }

  /** A file that has just been created is the last of the list. */
  lemma CreatedIsLast(s: Store, c: Call)
    requires Inv(s) && Creates(c, Step(s, c).reply)
    ensures IndexOf(Step(s, c).store.files, c.req.path) == |Step(s, c).store.files| - 1
  {
    var f, v := NewFile(c.req.path, c.req.lock, c.fd, c.now), Victim(s.files, s.algo, []);
    if s.currFileNum == s.maxFileNum && v < |s.files| {
      AbsentAfterRemoval(s.files, v, c.req.path);
      AppendKeepsIndex(ResetRefCounts(RemoveAt(s.files, v)), f, c.req.path);
    } else {
      AppendKeepsIndex(s.files, f, c.req.path);
    }
  }

  // ---------------------------------------------------------------- failures

  /** What a failed request may leave behind: only when and how often the file was last touched. */
  ghost predicate Alike(a: Option<Entry>, b: Option<Entry>) {
    a.Some? == b.Some? && (a.Some? ==> b.value == a.value.(used := b.value.used, uses := b.value.uses))
  }

  /** A failed request leaves contents, locks, queues, counters and maxima as they were. */
  lemma FailureChangesNothing(s: Store, c: Call, p: Path)
    requires Inv(s) && Step(s, c).reply.Failed?
    ensures Step(s, c).store == s.(files := Step(s, c).store.files)
    ensures Alike(View(s.files, p), View(Step(s, c).store.files, p))
    ensures Step(s, c).gone == [] && Step(s, c).granted == [] && Step(s, c).destroyed == []
  {
    hide Step, Inv;
    FailsQuietly(s, c);
    StepRefines(s, c, p);
  }

  lemma FailsQuietly(s: Store, c: Call)
    requires Step(s, c).reply.Failed?
    ensures Step(s, c).store == s.(files := Step(s, c).store.files)
    ensures Step(s, c).gone == [] && Step(s, c).granted == [] && Step(s, c).destroyed == []
  {
    hide Victim, IndexOf, RemoveFirst, EvictUntilFits, Replace, RunLength.Encode, RemoveAt, Heirs;
  }
}
