/** Which files a request destroys to make room, in the terms of each replacement algorithm, and when it does so. */
module EvictionLaws {
  import RunLength
  import opened StoreModel
  import opened StoreInvariant
  import opened Eviction
  import opened HandlerLaws
  import opened StoreRefinement
  import StoreRuns

  // ---------------------------------------------------------------- what the algorithms go by

  /**
    First-in-first-out evicts the first file of the list that it may; the least recently used file is the one whose
    last use has the lowest time, and the least frequently used the one with the lowest count, the first on ties.
  */
  lemma VictimByAlgorithm(files: seq<File>, algo: Algo, spare: Path, j: nat)
    requires j < |files| && files[j].path != spare
    ensures var v := Victim(files, algo, spare);
      && v < |files| && files[v].path != spare
      && match algo
         case Fifo => v <= j
         case Lru => files[v].lastRef < files[j].lastRef || (files[v].lastRef == files[j].lastRef && v <= j)
         case Lfu => files[v].refCount < files[j].refCount || (files[v].refCount == files[j].refCount && v <= j)
  {
    assert files[j].path != spare;
  }

  /** `f` goes before `g`, as each algorithm has it. */
  predicate GoesBefore(files: seq<File>, algo: Algo, f: File, g: File) {
    var older := IndexOf(files, f.path) < IndexOf(files, g.path);
    match algo
    case Fifo => older
    case Lru => f.lastRef < g.lastRef || (f.lastRef == g.lastRef && older)
    case Lfu => f.refCount < g.refCount || (f.refCount == g.refCount && older)
  }

  /** The order that evictions follow is that of the algorithm. */
  lemma OrderByAlgorithm(files: seq<File>, algo: Algo, spare: Path, a: nat, b: nat)
    requires DistinctPaths(files) && a < b < |EvictionOrder(files, algo, spare)|
    ensures GoesBefore(files, algo, EvictionOrder(files, algo, spare)[a], EvictionOrder(files, algo, spare)[b])
  {
    hide EvictionOrder;
    EvictionOrderIsStableSort(files, algo, spare);
    var order := EvictionOrder(files, algo, spare);
    assert Precedes(files, algo, order[a], order[b]);
  }

  // ---------------------------------------------------------------- writes

  /** Every victim of the loop goes before every candidate that stays. */
  lemma EvictedBeforeKept(s: Store, path: Path, i: nat, growth: int, f: File, g: File)
    requires Loose(s) && Spares(s, path, i, growth)
    requires f in EvictUntilFits(s, path, growth).1
    requires g in s.files && g.path != path && g !in EvictUntilFits(s, path, growth).1
    ensures GoesBefore(s.files, s.algo, f, g)
  {
    hide EvictionOrder, EvictUntilFits, GoesBefore, Shortest, Victim;
    var victims, order := EvictUntilFits(s, path, growth).1, EvictionOrder(s.files, s.algo, path);
    EvictsShortestPrefix(s, path, i, growth);
    EvictionOrderIsStableSort(s.files, s.algo, path);
    assert Candidate(s.files, path, g);
    var a: nat :| a < |victims| && victims[a] == f;
    var b: nat :| b < |order| && order[b] == g;
    assert forall k :: 0 <= k < |victims| ==> victims[k] in victims && victims[k] == order[k];
    OrderByAlgorithm(s.files, s.algo, path, a, b);
  }

  /** A write destroys files of the store other than its own, and each goes before every other that it leaves. */
  lemma WriteEvictsByAlgorithm(s: Store, c: Call, f: File, g: File)
    requires Inv(s) && c.req.ReqWrite? && f in Step(s, c).destroyed
    requires g in s.files && g.path != c.req.path && g !in Step(s, c).destroyed
    ensures f in s.files && f.path != c.req.path && GoesBefore(s.files, s.algo, f, g)
  {
    hide Step, Write, EvictUntilFits, FilesOk, GoesBefore, RunLength.Encode;
    StoreRuns.WriteForms(s, c);
    DestroyedByWriteOnly(s, c);
    var i := IndexOf(s.files, c.req.path);
    var t, size := Touched(s, i, c.now), |RunLength.Encode(s.files[i].bytes + c.req.data)|;
    var growth := size - s.files[i].contentSize;
    TouchedKeeps(s, i, c.now, []);
    PathsAreDistinct(t);
    LoopSplits(t, c.req.path, growth);
    InTouched(s, i, c.now, g);
    EvictedBeforeKept(t, c.req.path, i, growth, f, g);
    TouchedOrder(s, i, c.now, f, g);
  }

  lemma DestroyedByWriteOnly(s: Store, c: Call)
    requires c.req.ReqWrite? && Step(s, c).destroyed != []
    ensures WriteAllowed(s, c) && !Step(s, c).reply.Failed?
    ensures |RunLength.Encode(s.files[IndexOf(s.files, c.req.path)].bytes + c.req.data)| <= s.maxStorageSize
  {
    hide EvictUntilFits, Replace, RunLength.Encode;
  }

  /** Touching one file leaves the others in the list, and where they are. */
  lemma InTouched(s: Store, i: nat, now: int, g: File)
    requires i < |s.files| && g.path != s.files[i].path
    ensures g in s.files <==> g in Touched(s, i, now).files
  {
    if g in s.files {
      var k :| 0 <= k < |s.files| && s.files[k] == g;
      assert Touched(s, i, now).files[k] == g;
    }
  }

  lemma TouchedOrder(s: Store, i: nat, now: int, f: File, g: File)
    requires i < |s.files| && f in Touched(s, i, now).files && f.path != s.files[i].path
    requires GoesBefore(Touched(s, i, now).files, s.algo, f, g)
    ensures f in s.files && GoesBefore(s.files, s.algo, f, g)
  {
    InTouched(s, i, now, f);
    SameIndex(s.files, Touched(s, i, now).files, f.path);
    SameIndex(s.files, Touched(s, i, now).files, g.path);
  }

  // ---------------------------------------------------------------- creations

  lemma FirstInOrder(files: seq<File>, algo: Algo, spare: Path)
    requires Victim(files, algo, spare) < |files|
    ensures var order := EvictionOrder(files, algo, spare);
      order != [] && order[..1] == [files[Victim(files, algo, spare)]]
  {
    hide Victim;
  }

  /** The file that a creation adds, as the request and the clock determine it. */
  function CreatedFile(c: Call): File
    requires c.req.ReqOpen?
  {
    var owner := if c.req.lock then c.fd else 0;
    File(path := c.req.path, bytes := [], contentSize := 0, uncompressedSize := 0, lockedBy := owner, pending := [],
         openFds := [c.fd], firstWriter := owner, refCount := 0, lastRef := 0, insertionTime := c.now)
  }

  /**
    A creation destroys a file if and only if the store holds as many files as it may, and then the first of the
    eviction order and no other. The new file is added behind the others, which otherwise stay as they are.
  */
  lemma CreationEvicts(s: Store, c: Call)
    requires Inv(s) && StoreRuns.Creates(c, Step(s, c).reply)
    ensures var r, order := Step(s, c), EvictionOrder(s.files, s.algo, []);
      if |s.files| == s.maxFileNum then
        && order != [] && r.destroyed == order[..1] && r.store.numVictims == s.numVictims + 1
        && r.store.files == ResetRefCounts(RemoveAt(s.files, Victim(s.files, s.algo, []))) + [CreatedFile(c)]
      else
        r.destroyed == [] && r.store.numVictims == s.numVictims && r.store.files == s.files + [CreatedFile(c)]
  {
    hide EvictionOrder, Victim, FilesOk, IndexOf;
    if s.files != [] {
      VictimForNew(s);
      FirstInOrder(s.files, s.algo, []);
    }
    assert |s.files| == s.maxFileNum ==> s.files != [];
  }
}
