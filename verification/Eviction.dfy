/** What the replacement loop evicts: the shortest sufficient prefix of a stable order. */
module Eviction {
  import opened StoreModel
  import opened StoreInvariant

  // ---------------------------------------------------------------- the eviction order

  /** All candidates, in the order in which they would be evicted. */
  ghost function EvictionOrder(files: seq<File>, algo: Algo, spare: Path): seq<File>
    decreases |files|
  {
    var v := Victim(files, algo, spare);
    if v == |files| then [] else [files[v]] + EvictionOrder(RemoveAt(files, v), algo, spare)
  }

  ghost predicate Candidate(files: seq<File>, spare: Path, f: File) {
    f in files && f.path != spare
  }

  lemma MembersAfterRemoval(files: seq<File>, v: nat)
    requires v < |files| && DistinctPaths(files)
    ensures forall f :: f in RemoveAt(files, v) <==> f in files && f != files[v]
    ensures DistinctPaths(RemoveAt(files, v))
  {
    var after := RemoveAt(files, v);
    assert forall k :: 0 <= k < |after| ==> after[k] == files[if k < v then k else k + 1];
    forall f | f in files && f != files[v] ensures f in after {
      var k :| 0 <= k < |files| && files[k] == f;
      assert after[if k < v then k else k - 1] == f;
    }
  }

  lemma IndexShift(files: seq<File>, v: nat, a: nat)
    requires v < |files| && DistinctPaths(files) && a < |files| - 1
    ensures var f := RemoveAt(files, v)[a];
      IndexOf(RemoveAt(files, v), f.path) == a && IndexOf(files, f.path) == if a < v then a else a + 1
  {
    MembersAfterRemoval(files, v);
    IndexIsUnique(RemoveAt(files, v), a);
    IndexIsUnique(files, if a < v then a else a + 1);
  }

  lemma IndexAfterRemoval(files: seq<File>, v: nat, f: File, g: File)
    requires v < |files| && DistinctPaths(files) && f in RemoveAt(files, v) && g in RemoveAt(files, v)
    requires IndexOf(RemoveAt(files, v), f.path) < IndexOf(RemoveAt(files, v), g.path)
    ensures IndexOf(files, f.path) < IndexOf(files, g.path)
  {
    var a :| 0 <= a < |files| - 1 && RemoveAt(files, v)[a] == f;
    var b :| 0 <= b < |files| - 1 && RemoveAt(files, v)[b] == g;
    IndexShift(files, v, a);
    IndexShift(files, v, b);
  }

  /** Sorted by rank, and files of equal rank in list order. */
  ghost predicate StablySorted(order: seq<File>, files: seq<File>, algo: Algo) {
    forall a, b {:trigger Precedes(files, algo, order[a], order[b])} :: 0 <= a < b < |order| ==>
      Precedes(files, algo, order[a], order[b])
  }

  ghost predicate Precedes(files: seq<File>, algo: Algo, f: File, g: File) {
    || Rank(algo, f) < Rank(algo, g)
    || (Rank(algo, f) == Rank(algo, g) && IndexOf(files, f.path) < IndexOf(files, g.path))
  }

  lemma VictimPrecedesOthers(files: seq<File>, algo: Algo, spare: Path, f: File)
    requires DistinctPaths(files) && Victim(files, algo, spare) < |files|
    requires Candidate(files, spare, f) && f != files[Victim(files, algo, spare)]
    ensures Precedes(files, algo, files[Victim(files, algo, spare)], f)
  {
    var v := Victim(files, algo, spare);
    var j :| 0 <= j < |files| && files[j] == f;
    IndexIsUnique(files, v);
    IndexIsUnique(files, j);
  }

  lemma {:induction false} EvictionOrderMembers(files: seq<File>, algo: Algo, spare: Path)
    requires DistinctPaths(files)
    ensures forall f :: f in EvictionOrder(files, algo, spare) <==> Candidate(files, spare, f)
    decreases |files|
  {
    var v := Victim(files, algo, spare);
    if v < |files| {
      MembersAfterRemoval(files, v);
      EvictionOrderMembers(RemoveAt(files, v), algo, spare);
      var tail := EvictionOrder(RemoveAt(files, v), algo, spare);
      assert forall f :: f in [files[v]] + tail <==> f == files[v] || f in tail;
    }
  }

  /** The victim comes before any file of the rest. */
  lemma FirstOfTwo(files: seq<File>, algo: Algo, spare: Path, v: nat, g: File)
    requires DistinctPaths(files) && v == Victim(files, algo, spare) < |files|
    requires Candidate(RemoveAt(files, v), spare, g)
    ensures Precedes(files, algo, files[v], g) && files[v].path != g.path
  {
    MembersAfterRemoval(files, v);
    VictimPrecedesOthers(files, algo, spare, g);
    DistinctMembers(files, files[v], g);
  }

  /** The first victim comes before the rest of the order, and the rest keeps its own order. */
  lemma OrderOfTwo(files: seq<File>, algo: Algo, spare: Path, v: nat, tail: seq<File>, a: nat, b: nat)
    requires DistinctPaths(files) && v == Victim(files, algo, spare) < |files| && a < b < |tail| + 1
    requires forall g :: g in tail ==> Candidate(RemoveAt(files, v), spare, g)
    requires StablySorted(tail, RemoveAt(files, v), algo) && DistinctPaths(tail)
    ensures var order := [files[v]] + tail;
      Precedes(files, algo, order[a], order[b]) && order[a].path != order[b].path
  {
    hide Rank, Victim;
    assert tail[b - 1] in tail;
    if a == 0 {
      FirstOfTwo(files, algo, spare, v, tail[b - 1]);
    } else {
      assert tail[a - 1] in tail;
      assert Precedes(RemoveAt(files, v), algo, tail[a - 1], tail[b - 1]);
      TailKeepsOrder(files, v, algo, tail[a - 1], tail[b - 1]);
    }
  }

  lemma {:induction false} EvictionOrderSorted(files: seq<File>, algo: Algo, spare: Path)
    requires DistinctPaths(files)
    ensures StablySorted(EvictionOrder(files, algo, spare), files, algo)
    ensures DistinctPaths(EvictionOrder(files, algo, spare))
    decreases |files|
  {
    var v := Victim(files, algo, spare);
    if v < |files| {
      var order, tail := EvictionOrder(files, algo, spare), EvictionOrder(RemoveAt(files, v), algo, spare);
      MembersAfterRemoval(files, v);
      EvictionOrderMembers(RemoveAt(files, v), algo, spare);
      EvictionOrderSorted(RemoveAt(files, v), algo, spare);
      forall a, b | 0 <= a < b < |order|
        ensures Precedes(files, algo, order[a], order[b]) && order[a].path != order[b].path
      {
        OrderOfTwo(files, algo, spare, v, tail, a, b);
      }
    }
  }

  /**
    The eviction order is the stable sort of the candidates: it holds each of them once, sorted by rank with
    ties in list order. For first-in-first-out every rank is equal, so it is list order.
  */
  lemma EvictionOrderIsStableSort(files: seq<File>, algo: Algo, spare: Path)
    requires DistinctPaths(files)
    ensures var order := EvictionOrder(files, algo, spare);
      && (forall f :: f in order <==> Candidate(files, spare, f))
      && StablySorted(order, files, algo) && DistinctPaths(order)
  {
    EvictionOrderMembers(files, algo, spare);
    EvictionOrderSorted(files, algo, spare);
  }

  lemma DistinctMembers(files: seq<File>, f: File, g: File)
    requires DistinctPaths(files) && f in files && g in files && f != g
    ensures f.path != g.path
  {
    var i :| 0 <= i < |files| && files[i] == f;
    var j :| 0 <= j < |files| && files[j] == g;
  }

  lemma TailKeepsOrder(files: seq<File>, v: nat, algo: Algo, f: File, g: File)
    requires v < |files| && DistinctPaths(files) && f in RemoveAt(files, v) && g in RemoveAt(files, v)
    requires Precedes(RemoveAt(files, v), algo, f, g)
    ensures Precedes(files, algo, f, g)
  {
    if Rank(algo, f) == Rank(algo, g) {
      IndexAfterRemoval(files, v, f, g);
    }
  }

  // ---------------------------------------------------------------- the loop

  /** What holds between evictions: the store is consistent, but the pending write may not fit yet. */
  ghost predicate Loose(s: Store) {
    FilesOk(s.files) && s.currFileNum == |s.files| && s.currStorageSize == Total(s.files)
  }

  /** The file being written, spared, and its final code fits in an otherwise empty store. */
  ghost predicate Spares(s: Store, path: Path, i: nat, growth: int) {
    i < |s.files| && s.files[i].path == path && s.files[i].contentSize + growth <= s.maxStorageSize
  }

  lemma EvictOneKeeps(s: Store, path: Path)
    requires Loose(s) && Victim(s.files, s.algo, path) < |s.files|
    ensures Loose(EvictOne(s, path))
  {
    var v := Victim(s.files, s.algo, path);
    RemoveKeeps(s.files, v);
    TotalOfRemoval(s.files, v);
  }

  /** While the write does not fit, `getVictim` finds a file, and not the one being written. */
  lemma VictimExists(s: Store, path: Path, i: nat, growth: int)
    requires Loose(s) && Spares(s, path, i, growth)
    requires s.currStorageSize + growth > s.maxStorageSize
    ensures Victim(s.files, s.algo, path) < |s.files| && Victim(s.files, s.algo, path) != i
  {
    TotalOfOne(s.files);
    assert |s.files| > 1 ==> s.files[0].path != s.files[1].path;
  }

  lemma TotalOfOne(files: seq<File>)
    ensures |files| == 1 ==> Total(files) == files[0].contentSize
  {
  }

  /** No counter goes below zero on the way: the unsigned subtractions are exact. */
  lemma NoUnderflow(s: Store, i: nat)
    requires Loose(s) && i < |s.files|
    ensures 1 <= s.currFileNum && 0 <= s.files[i].contentSize <= s.currStorageSize
  {
    assert forall k :: 0 <= k < |s.files| ==> FileOk(s.files[k]);
    TotalIsNatural(s.files);
  }

  lemma SparedIndexAfterEviction(s: Store, path: Path, i: nat, growth: int) returns (i': nat)
    requires Loose(s) && Spares(s, path, i, growth) && Victim(s.files, s.algo, path) < |s.files|
    ensures Spares(EvictOne(s, path), path, i', growth) && EvictOne(s, path).files[i'] == s.files[i]
  {
    var v := Victim(s.files, s.algo, path);
    i' := if i < v then i else i - 1;
    assert RemoveAt(s.files, v)[i'] == s.files[i];
  }

  /** One turn of the loop finds a victim and keeps everything in place for the next. */
  lemma OneTurn(s: Store, path: Path, i: nat, growth: int) returns (i': nat)
    requires Loose(s) && Spares(s, path, i, growth)
    requires s.currStorageSize + growth > s.maxStorageSize
    ensures Victim(s.files, s.algo, path) < |s.files|
    ensures Loose(EvictOne(s, path)) && Spares(EvictOne(s, path), path, i', growth)
  {
    VictimExists(s, path, i, growth);
    EvictOneKeeps(s, path);
    i' := SparedIndexAfterEviction(s, path, i, growth);
  }

  /** The first `k` of the eviction order free enough room for `growth` more bytes. */
  ghost predicate Suffices(s: Store, path: Path, growth: int, k: nat)
    requires k <= |EvictionOrder(s.files, s.algo, path)|
  {
    s.currStorageSize - Total(EvictionOrder(s.files, s.algo, path)[..k]) + growth <= s.maxStorageSize
  }

  /** `k` is the least length that suffices. */
  ghost predicate Shortest(s: Store, path: Path, growth: int, k: nat) {
    && k <= |EvictionOrder(s.files, s.algo, path)|
    && Suffices(s, path, growth, k)
    && forall j :: 0 <= j < k ==> !Suffices(s, path, growth, j)
  }

  /** The loop evicts the shortest prefix of the eviction order that makes the write fit. */
  lemma {:induction false} EvictsShortestPrefix(s: Store, path: Path, i: nat, growth: int)
    requires Loose(s) && Spares(s, path, i, growth)
    ensures var victims := EvictUntilFits(s, path, growth).1;
      Shortest(s, path, growth, |victims|) && victims == EvictionOrder(s.files, s.algo, path)[..|victims|]
    decreases |s.files|
  {
    NothingEvicted(s, path, growth);
    if s.currStorageSize + growth > s.maxStorageSize {
      var i' := OneTurn(s, path, i, growth);
      EvictsShortestPrefix(EvictOne(s, path), path, i', growth);
      ShortestAfterOne(s, path, growth, |EvictUntilFits(EvictOne(s, path), path, growth).1|);
    }
  }

  lemma NothingEvicted(s: Store, path: Path, growth: int)
    ensures Suffices(s, path, growth, 0) == (s.currStorageSize + growth <= s.maxStorageSize)
  {
    assert EvictionOrder(s.files, s.algo, path)[..0] == [];
  }

  lemma ShortestAfterOne(s: Store, path: Path, growth: int, k: nat)
    requires Victim(s.files, s.algo, path) < |s.files|
    requires Shortest(EvictOne(s, path), path, growth, k) && !Suffices(s, path, growth, 0)
    ensures Shortest(s, path, growth, k + 1)
    ensures var tail := EvictionOrder(EvictOne(s, path).files, s.algo, path);
      EvictionOrder(s.files, s.algo, path)[..k + 1] == [s.files[Victim(s.files, s.algo, path)]] + tail[..k]
  {
    SufficesAfterOne(s, path, growth, k);
    forall j | 0 <= j < k + 1 ensures !Suffices(s, path, growth, j) {
      if j > 0 {
        SufficesAfterOne(s, path, growth, j - 1);
      }
    }
  }

  lemma SufficesAfterOne(s: Store, path: Path, growth: int, k: nat)
    requires Victim(s.files, s.algo, path) < |s.files|
    requires k <= |EvictionOrder(EvictOne(s, path).files, s.algo, path)|
    ensures Suffices(s, path, growth, k + 1) == Suffices(EvictOne(s, path), path, growth, k)
  {
    var tail := EvictionOrder(EvictOne(s, path).files, s.algo, path);
    var first := s.files[Victim(s.files, s.algo, path)];
    assert ([first] + tail)[..k + 1] == [first] + tail[..k];
  }

  /** Survivors and victims are the files there were, and the spared one survives. */
  ghost predicate Splits(before: seq<File>, path: Path, after: seq<File>, victims: seq<File>) {
    && |after| + |victims| == |before|
    && (forall f :: f in before <==> f in after || f in victims)
    && (forall f :: f in victims ==> f.path != path && f !in after)
  }

  /** After the loop the store is consistent and the write fits. */
  lemma {:induction false} LoopMakesRoom(s: Store, path: Path, i: nat, growth: int)
    requires Loose(s) && Spares(s, path, i, growth)
    ensures var rest := EvictUntilFits(s, path, growth).0;
      Loose(rest) && rest.currStorageSize + growth <= rest.maxStorageSize
    decreases |s.files|
  {
    if s.currStorageSize + growth > s.maxStorageSize {
      var i' := OneTurn(s, path, i, growth);
      LoopMakesRoom(EvictOne(s, path), path, i', growth);
    }
  }

  /** Besides the list and its two counters, the loop changes only the number of victims. */
  lemma {:induction false} LoopCounts(s: Store, path: Path, growth: int)
    ensures var (rest, victims) := EvictUntilFits(s, path, growth);
      rest == s.(files := rest.files, currFileNum := s.currFileNum - |victims|, currStorageSize := rest.currStorageSize,
                 numVictims := s.numVictims + |victims|)
    decreases |s.files|
  {
    var v := Victim(s.files, s.algo, path);
    if !(s.currStorageSize + growth <= s.maxStorageSize || v == |s.files|) {
      LoopCounts(EvictOne(s, path), path, growth);
    }
  }

  /** Eviction conserves files. */
  lemma {:induction false} LoopSplits(s: Store, path: Path, growth: int)
    requires DistinctPaths(s.files)
    ensures Splits(s.files, path, EvictUntilFits(s, path, growth).0.files, EvictUntilFits(s, path, growth).1)
    decreases |s.files|
  {
    var v := Victim(s.files, s.algo, path);
    if !(s.currStorageSize + growth <= s.maxStorageSize || v == |s.files|) {
      MembersAfterRemoval(s.files, v);
      LoopSplits(EvictOne(s, path), path, growth);
      var (rest, victims) := EvictUntilFits(EvictOne(s, path), path, growth);
      assert forall f :: f in [s.files[v]] + victims <==> f == s.files[v] || f in victims;
    }
  }

  /** Survivors keep their relative order. */
  lemma {:induction false} LoopKeepsOrder(s: Store, path: Path, growth: int, f: File, g: File)
    requires DistinctPaths(s.files)
    requires f in EvictUntilFits(s, path, growth).0.files && g in EvictUntilFits(s, path, growth).0.files
    requires IndexOf(EvictUntilFits(s, path, growth).0.files, f.path)
      < IndexOf(EvictUntilFits(s, path, growth).0.files, g.path)
    ensures f in s.files && g in s.files && IndexOf(s.files, f.path) < IndexOf(s.files, g.path)
    decreases |s.files|
  {
    var v := Victim(s.files, s.algo, path);
    if !(s.currStorageSize + growth <= s.maxStorageSize || v == |s.files|) {
      MembersAfterRemoval(s.files, v);
      LoopKeepsOrder(EvictOne(s, path), path, growth, f, g);
      IndexAfterRemoval(s.files, v, f, g);
    }
  }
}
