/** What holds over whole runs of the storage: contents, accounting, locks. */
module StoreRuns {
  import opened Prelude
  import RunLength
  import opened StoreModel
  import opened StoreInvariant
  import opened Eviction
  import opened HandlerLaws
  import opened StoreRefinement

  /** The result of the last of some calls. */
  ghost function Last(s: Store, calls: seq<Call>): Result
    requires calls != []
  {
    Step(After(s, calls[..|calls| - 1]), calls[|calls| - 1])
  }

  // ---------------------------------------------------------------- contents

  /** Everything successfully written to `p` since it was last created. */
  ghost function BytesWritten(s: Store, calls: seq<Call>, p: Path): seq<Byte>
    decreases |calls|
  {
    if calls == [] then []
    else
      var n := |calls| - 1;
      var c, r := calls[n], Last(s, calls);
      if p in Paths(r.destroyed) then []
      else if p != Target(c.req) || !r.reply.Done? then BytesWritten(s, calls[..n], p)
      else if c.req.ReqOpen? && c.req.create then []
      else if c.req.ReqWrite? then BytesWritten(s, calls[..n], p) + c.req.data
      else BytesWritten(s, calls[..n], p)
  }

  lemma EffectOnBytes(e: Option<Entry>, p: Path, c: Call, reply: Reply, destroyed: set<Path>)
    requires Effect(e, p, c, reply, destroyed).Some? && p != []
    requires !reply.Content? || c.req.ReqRead?
    ensures var e' := Effect(e, p, c, reply, destroyed).value;
      if p == Target(c.req) && reply.Done? && c.req.ReqOpen? && c.req.create then e'.bytes == []
      else if p == Target(c.req) && reply.Done? && c.req.ReqWrite? then
        e.Some? && e'.bytes == e.value.bytes + c.req.data
      else e.Some? && e'.bytes == e.value.bytes
  {
  }

  lemma OnlyReadsReturnContent(s: Store, c: Call)
    ensures Step(s, c).reply.Content? ==> c.req.ReqRead?
  {
  }

  /** Both sizes recorded for `p`, that of the code and that of the bytes, are those of `bytes`. */
  ghost predicate SizesAreOf(files: seq<File>, p: Path, bytes: seq<Byte>)
    requires Has(files, p)
  {
    var f := files[IndexOf(files, p)];
    f.contentSize == |RunLength.Encode(bytes)| && f.uncompressedSize == |bytes|
  }

  lemma SizesAreRight(s: Store, p: Path)
    requires Inv(s)
    ensures Has(s.files, p) ==> SizesAreOf(s.files, p, s.files[IndexOf(s.files, p)].bytes)
  {
    assert Has(s.files, p) ==> FileOk(s.files[IndexOf(s.files, p)]);
  }

  /** In every run each file holds exactly the concatenation of the successful writes since its creation. */
  lemma {:induction false} ContentIsWhatWasWritten(s: Store, calls: seq<Call>, p: Path)
    requires Inv(s) && s.files == [] && Proper(s, calls)
    ensures View(After(s, calls).files, p).Some? ==>
      View(After(s, calls).files, p).value.bytes == BytesWritten(s, calls, p)
    ensures Has(After(s, calls).files, p) ==> SizesAreOf(After(s, calls).files, p, BytesWritten(s, calls, p))
    decreases |calls|
  {
    RunKeepsInv(s, calls);
    SizesAreRight(After(s, calls), p);
    if calls != [] && p != [] {
      var n := |calls| - 1;
      var before := After(s, calls[..n]);
      ProperPrefix(s, calls, n);
      RunKeepsInv(s, calls[..n]);
      ContentIsWhatWasWritten(s, calls[..n], p);
      StepRefines(before, calls[n], p);
      OnlyReadsReturnContent(before, calls[n]);
      if View(After(s, calls).files, p).Some? {
        EffectOnBytes(View(before.files, p), p, calls[n], Last(s, calls).reply, Paths(Last(s, calls).destroyed));
      }
    } else {
      NoEmptyPath(After(s, calls));
    }
  }

  /** A successful read returns exactly what was written. */
  lemma ReadReturnsWhatWasWritten(s: Store, calls: seq<Call>, c: Call)
    requires Inv(s) && s.files == [] && Proper(s, calls) && c.req.ReqRead?
    requires Step(After(s, calls), c).reply.Content?
    ensures Step(After(s, calls), c).reply == Content(BytesWritten(s, calls, c.req.path))
  {
    RunKeepsInv(s, calls);
    ContentIsWhatWasWritten(s, calls, c.req.path);
    StepRefines(After(s, calls), c, c.req.path);
  }

  // ---------------------------------------------------------------- the permission for a first write

  /** The result of the call at `k`. */
  ghost function ResultAt(s: Store, calls: seq<Call>, k: nat): Result
    requires k < |calls|
  {
    Step(After(s, calls[..k]), calls[k])
  }

  /** A creation of `p` by `fd` that locks it and succeeds. */
  predicate CreatesLocked(c: Call, reply: Reply, p: Path, fd: Fd) {
    c.fd == fd && c.req == ReqOpen(p, true, true) && reply.Done?
  }

  /** The file is destroyed, or somebody uses it with success. */
  predicate EndsFirstWrite(c: Call, reply: Reply, destroyed: set<Path>, p: Path) {
    || p in destroyed
    || ((c.req.ReqRead? || c.req.ReqWrite? || c.req.ReqLock? || c.req.ReqUnlock? || c.req.ReqClose?)
        && c.req.path == p && (reply.Done? || reply.Content?))
  }

  ghost predicate GrantedAt(s: Store, calls: seq<Call>, k: nat, p: Path, fd: Fd)
    requires k < |calls|
  {
    CreatesLocked(calls[k], ResultAt(s, calls, k).reply, p, fd)
  }

  ghost predicate EndedAt(s: Store, calls: seq<Call>, k: nat, p: Path)
    requires k < |calls|
  {
    EndsFirstWrite(calls[k], ResultAt(s, calls, k).reply, Paths(ResultAt(s, calls, k).destroyed), p)
  }

  /** `fd` has created `p` and locked it by that, and since then nobody has used it with success. */
  ghost predicate MayWriteFirst(s: Store, calls: seq<Call>, p: Path, fd: Fd) {
    exists k :: 0 <= k < |calls| && GrantedAt(s, calls, k, p, fd)
      && forall j :: k < j < |calls| ==> !EndedAt(s, calls, j, p)
  }

  lemma EffectOnFirst(e: Option<Entry>, p: Path, c: Call, reply: Reply, destroyed: set<Path>, fd: Fd)
    requires p != [] && fd > 0
    requires reply.Content? ==> c.req.ReqRead?
    requires CreatesLocked(c, reply, p, fd) ==> p !in destroyed
    requires c.req.ReqOpen? && c.req.create && c.req.path == p && reply.Done? ==> e.None?
    ensures var e' := Effect(e, p, c, reply, destroyed);
      (e'.Some? && e'.value.first == fd) <==>
      CreatesLocked(c, reply, p, fd) || (e.Some? && e.value.first == fd && !EndsFirstWrite(c, reply, destroyed, p))
  {
  }

  lemma {:induction false} MayWriteFirstOfMore(s: Store, calls: seq<Call>, p: Path, fd: Fd)
    requires calls != []
    ensures var n := |calls| - 1;
      MayWriteFirst(s, calls, p, fd) <==>
      GrantedAt(s, calls, n, p, fd) || (MayWriteFirst(s, calls[..n], p, fd) && !EndedAt(s, calls, n, p))
  {
    hide Step, After, CreatesLocked, EndsFirstWrite;
    var n := |calls| - 1;
    forall k | 0 <= k < n ensures ResultAt(s, calls[..n], k) == ResultAt(s, calls, k) {
      assert calls[..n][..k] == calls[..k];
    }
    assert forall k :: 0 <= k < n ==> GrantedAt(s, calls[..n], k, p, fd) == GrantedAt(s, calls, k, p, fd);
    assert forall k :: 0 <= k < n ==> EndedAt(s, calls[..n], k, p) == EndedAt(s, calls, k, p);
  }

  lemma FirstInView(s: Store, p: Path, fd: Fd)
    requires fd > 0
    ensures TestFirstWrite(s, p, fd).reply
      == Answer(p != [] && View(s.files, p).Some? && View(s.files, p).value.first == fd)
  {
  }

  lemma CreatedIsNotDestroyed(s: Store, c: Call)
    requires Inv(s) && c.req.ReqOpen? && c.req.create && Step(s, c).reply.Done?
    ensures c.req.path !in Paths(Step(s, c).destroyed) && View(s.files, c.req.path).None? && c.req.path != []
  {
  }

  /**
    Over every run, a first write is allowed exactly if its client has created the file with a lock and since then
    nobody, itself included, has read, written, locked, unlocked or closed it with success.
  */
  lemma {:induction false} FirstWriteIff(s: Store, calls: seq<Call>, p: Path, fd: Fd)
    requires Inv(s) && s.files == [] && Proper(s, calls) && fd > 0
    ensures TestFirstWrite(After(s, calls), p, fd).reply == Answer(MayWriteFirst(s, calls, p, fd))
    decreases |calls|
  {
    hide Step, Inv, TestFirstWrite, Effect, EndsFirstWrite, ReplyFor;
    FirstInView(After(s, calls), p, fd);
    if calls != [] {
      var n := |calls| - 1;
      var before := After(s, calls[..n]);
      ProperPrefix(s, calls, n);
      RunKeepsInv(s, calls[..n]);
      FirstWriteIff(s, calls[..n], p, fd);
      FirstInView(before, p, fd);
      MayWriteFirstOfMore(s, calls, p, fd);
      StepRefines(before, calls[n], p);
      OnlyReadsReturnContent(before, calls[n]);
      if calls[n].req.ReqOpen? && calls[n].req.create && Step(before, calls[n]).reply.Done? {
        CreatedIsNotDestroyed(before, calls[n]);
      }
      if p != [] {
        EffectOnFirst(View(before.files, p), p, calls[n], ResultAt(s, calls, n).reply,
                      Paths(ResultAt(s, calls, n).destroyed), fd);
      }
    }
  }

  // ---------------------------------------------------------------- accounting

  predicate Creates(c: Call, reply: Reply) {
    c.req.ReqOpen? && c.req.create && reply.Done?
  }

  predicate Removes(c: Call, reply: Reply) {
    c.req.ReqRemove? && reply.Done?
  }

  ghost function Creations(s: Store, calls: seq<Call>): nat
    decreases |calls|
  {
    if calls == [] then 0
    else Creations(s, calls[..|calls| - 1]) + One(Creates(calls[|calls| - 1], Last(s, calls).reply))
  }

  ghost function Removals(s: Store, calls: seq<Call>): nat
    decreases |calls|
  {
    if calls == [] then 0
    else Removals(s, calls[..|calls| - 1]) + One(Removes(calls[|calls| - 1], Last(s, calls).reply))
  }

  /** What a write does to the counters. */
  lemma RewriteCounts(s: Store, i: nat, data: seq<Byte>, size: nat)
    requires i < |s.files|
    ensures var r := Rewrite(s, i, data, size);
      && r.store.currFileNum == s.currFileNum - |r.destroyed| && r.store.numVictims == s.numVictims + |r.destroyed|
      && r.store.maxReachedFileNum == s.maxReachedFileNum
      && r.store.maxReachedStorageSize == Max(s.maxReachedStorageSize, r.store.currStorageSize)
  {
    LoopCounts(s, s.files[i].path, size - s.files[i].contentSize);
  }

  /** A write changes nothing, or only touches the file, or rewrites it. */
  lemma WriteForms(s: Store, c: Call)
    requires c.req.ReqWrite?
    ensures if WriteAllowed(s, c) && !Step(s, c).reply.Failed? then
        var i := IndexOf(s.files, c.req.path);
        Step(s, c) == Rewrite(Touched(s, i, c.now), i, c.req.data, |RunLength.Encode(s.files[i].bytes + c.req.data)|)
      else Step(s, c).store == s.(files := Step(s, c).store.files)
  {
    hide IndexOf, EvictUntilFits, Replace, RunLength.Encode;
  }

  lemma WriteCounts(s: Store, c: Call)
    requires c.req.ReqWrite?
    ensures Step(s, c).store.currFileNum + Step(s, c).store.numVictims == s.currFileNum + s.numVictims
    ensures s.currFileNum <= s.maxReachedFileNum ==>
      Step(s, c).store.currFileNum <= s.currFileNum && Step(s, c).store.maxReachedFileNum == s.maxReachedFileNum
    ensures s.currStorageSize <= s.maxReachedStorageSize ==>
      Step(s, c).store.maxReachedStorageSize == Max(s.maxReachedStorageSize, Step(s, c).store.currStorageSize)
  {
    WriteForms(s, c);
    if WriteAllowed(s, c) {
      var i := IndexOf(s.files, c.req.path);
      RewriteCounts(Touched(s, i, c.now), i, c.req.data, |RunLength.Encode(s.files[i].bytes + c.req.data)|);
    }
  }

  lemma OpenBalances(s: Store, c: Call)
    requires c.req.ReqOpen?
    ensures var r := Step(s, c);
      r.store.currFileNum + r.store.numVictims == s.currFileNum + s.numVictims + One(Creates(c, r.reply))
  {
  }

  lemma StepBalances(s: Store, c: Call)
    ensures var r := Step(s, c);
      r.store.currFileNum + r.store.numVictims + One(Removes(c, r.reply))
      == s.currFileNum + s.numVictims + One(Creates(c, r.reply))
  {
    hide Open, Write, IndexOf, RemoveFirst, RemoveAt, Heirs;
    if c.req.ReqWrite? {
      WriteCounts(s, c);
    } else if c.req.ReqOpen? {
      OpenBalances(s, c);
    }
  }

  /** Every file ever created is still stored, was evicted or was removed. */
  lemma {:induction false} EveryFileAccountedFor(s: Store, calls: seq<Call>)
    requires s.currFileNum == s.numVictims == 0
    ensures Creations(s, calls) == After(s, calls).currFileNum + After(s, calls).numVictims + Removals(s, calls)
    decreases |calls|
  {
    if calls != [] {
      EveryFileAccountedFor(s, calls[..|calls| - 1]);
      StepBalances(After(s, calls[..|calls| - 1]), calls[|calls| - 1]);
    }
  }

  // ---------------------------------------------------------------- maxima

  /** Both recorded maxima cover their counters. */
  predicate MaximaCover(s: Store) {
    s.currFileNum <= s.maxReachedFileNum && s.currStorageSize <= s.maxReachedStorageSize
  }

  /** A step raises a maximum exactly when its counter ends up above it. */
  predicate TracksMaxima(s: Store, s': Store) {
    && s'.maxReachedFileNum == Max(s.maxReachedFileNum, s'.currFileNum)
    && s'.maxReachedStorageSize == Max(s.maxReachedStorageSize, s'.currStorageSize)
  }

  lemma OpenTracksMaxima(s: Store, c: Call)
    requires Inv(s) && MaximaCover(s) && c.req.ReqOpen?
    ensures TracksMaxima(s, Step(s, c).store)
  {
    var v := Victim(s.files, s.algo, []);
    if v < |s.files| {
      NoUnderflow(s, v);
    }
  }

  lemma StepTracksMaxima(s: Store, c: Call)
    requires Inv(s) && MaximaCover(s)
    ensures TracksMaxima(s, Step(s, c).store)
  {
    hide Open, Write, RemoveFirst;
    if c.req.ReqWrite? {
      WriteCounts(s, c);
    } else if c.req.ReqOpen? {
      OpenTracksMaxima(s, c);
    } else if c.req.ReqRemove? && IndexOf(s.files, c.req.path) < |s.files| {
      NoUnderflow(s, IndexOf(s.files, c.req.path));
    }
  }

  datatype Counter = FileCount | StorageSize

  function Reading(k: Counter, s: Store): int {
    if k.FileCount? then s.currFileNum else s.currStorageSize
  }

  /** The values of a counter at the start and after each call. */
  ghost function Readings(k: Counter, s: Store, calls: seq<Call>): seq<int>
    decreases |calls|
  {
    if calls == [] then [Reading(k, s)] else Readings(k, s, calls[..|calls| - 1]) + [Reading(k, After(s, calls))]
  }

  predicate IsMaximum(max: int, xs: seq<int>) {
    max in xs && forall x :: x in xs ==> x <= max
  }

  lemma MaximumOfLonger(max: int, xs: seq<int>, y: int)
    requires IsMaximum(max, xs)
    ensures IsMaximum(Max(max, y), xs + [y])
  {
  }

  /** The recorded maxima are exactly the maxima of the two counters over all past states. */
  lemma {:induction false} MaximaAreExact(s: Store, calls: seq<Call>)
    requires Inv(s) && Proper(s, calls)
    requires s.maxReachedFileNum == s.currFileNum && s.maxReachedStorageSize == s.currStorageSize
    ensures IsMaximum(After(s, calls).maxReachedFileNum, Readings(FileCount, s, calls))
    ensures IsMaximum(After(s, calls).maxReachedStorageSize, Readings(StorageSize, s, calls))
    ensures MaximaCover(After(s, calls))
    decreases |calls|
  {
    if calls != [] {
      var n := |calls| - 1;
      var before := After(s, calls[..n]);
      ProperPrefix(s, calls, n);
      MaximaAreExact(s, calls[..n]);
      RunKeepsInv(s, calls[..n]);
      StepTracksMaxima(before, calls[n]);
      MaximumOfLonger(before.maxReachedFileNum, Readings(FileCount, s, calls[..n]), After(s, calls).currFileNum);
      MaximumOfLonger(before.maxReachedStorageSize, Readings(StorageSize, s, calls[..n]),
                      After(s, calls).currStorageSize);
    }
  }
}
