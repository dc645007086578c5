/** The storage invariant, and that every handler keeps it. */
module StoreInvariant {
  import opened RunLength
  import opened StoreModel

  ghost predicate NoDup<T>(xs: seq<T>) {
    forall i, j :: 0 <= i < j < |xs| ==> xs[i] != xs[j]
  }

  /** Both recorded sizes are right: that of the code and that of the bytes. */
  ghost predicate WellStored(f: File) {
    f.contentSize == |Encode(f.bytes)| && f.uncompressedSize == |f.bytes|
  }

  /** Clients wait only for a lock that somebody holds, each once, and the holder is not among them. */
  ghost predicate QueueOk(f: File) {
    && 0 <= f.lockedBy
    && (f.pending != [] ==> f.lockedBy != 0)
    && f.lockedBy !in f.pending
    && NoDup(f.pending)
    && forall fd :: fd in f.pending ==> fd > 0
  }

  ghost predicate FileOk(f: File) {
    f.path != [] && WellStored(f) && QueueOk(f)
  }

  ghost predicate DistinctPaths(files: seq<File>) {
    forall i, j {:trigger files[i].path, files[j].path} :: 0 <= i < j < |files| ==> files[i].path != files[j].path
  }

  /** No client waits for two files. */
  ghost predicate DistinctWaiters(files: seq<File>) {
    forall i, j, fd {:trigger fd in files[i].pending, fd in files[j].pending} ::
      0 <= i < j < |files| && fd in files[i].pending ==> fd !in files[j].pending
  }

  ghost predicate FilesOk(files: seq<File>) {
    && (forall i {:trigger FileOk(files[i])} :: 0 <= i < |files| ==> FileOk(files[i]))
    && DistinctPaths(files) && DistinctWaiters(files)
  }

  function Total(files: seq<File>): int {
    if files == [] then 0 else files[0].contentSize + Total(files[1..])
  }

  ghost predicate Inv(s: Store) {
    && FilesOk(s.files)
    && s.currFileNum == |s.files| <= s.maxFileNum
    && s.currStorageSize == Total(s.files) <= s.maxStorageSize
    && 0 < s.maxFileNum
  }

  ghost predicate Waits(files: seq<File>, fd: Fd) {
    exists i :: 0 <= i < |files| && fd in files[i].pending
  }

  // ---------------------------------------------------------------- sums

  lemma {:induction false} TotalOfAppend(a: seq<File>, b: seq<File>)
    ensures Total(a + b) == Total(a) + Total(b)
  {
    if a == [] {
      assert a + b == b;
    } else {
      TotalOfAppend(a[1..], b);
      assert (a + b)[1..] == a[1..] + b;
    }
  }

  lemma {:induction false} TotalOfSameSizes(a: seq<File>, b: seq<File>)
    requires |a| == |b| && forall i :: 0 <= i < |a| ==> a[i].contentSize == b[i].contentSize
    ensures Total(a) == Total(b)
  {
    if a != [] {
      TotalOfSameSizes(a[1..], b[1..]);
    }
  }

  lemma TotalAround(files: seq<File>, i: nat)
    requires i < |files|
    ensures Total(files) == Total(files[..i]) + files[i].contentSize + Total(files[i + 1..])
  {
    assert files == files[..i] + files[i..];
    TotalOfAppend(files[..i], files[i..]);
  }

  lemma TotalOfUpdate(files: seq<File>, i: nat, f: File)
    requires i < |files|
    ensures Total(files[i := f]) == Total(files) - files[i].contentSize + f.contentSize
  {
    TotalAround(files, i);
    TotalAround(files[i := f], i);
    assert files[i := f][..i] == files[..i] && files[i := f][i + 1..] == files[i + 1..];
  }

  lemma TotalOfRemoval(files: seq<File>, i: nat)
    requires i < |files|
    ensures Total(RemoveAt(files, i)) == Total(files) - files[i].contentSize
  {
    TotalAround(files, i);
    TotalOfAppend(files[..i], files[i + 1..]);
  }

  lemma {:induction false} TotalIsNatural(files: seq<File>)
    requires forall i :: 0 <= i < |files| ==> files[i].contentSize >= 0
    ensures 0 <= Total(files)
    ensures forall i :: 0 <= i < |files| ==> files[i].contentSize <= Total(files)
  {
    if files != [] {
      TotalIsNatural(files[1..]);
      assert forall i :: 1 <= i < |files| ==> files[i] == files[1..][i - 1];
    }
  }

  // ---------------------------------------------------------------- edits of the list

  lemma IndexIsUnique(files: seq<File>, i: nat)
    requires DistinctPaths(files) && i < |files|
    ensures IndexOf(files, files[i].path) == i
  {
  }

  lemma UpdateKeeps(files: seq<File>, i: nat, f: File)
    requires FilesOk(files) && i < |files| && f.path == files[i].path && FileOk(f)
    requires forall fd :: fd in f.pending ==> fd in files[i].pending || !Waits(files, fd)
    ensures FilesOk(files[i := f])
  {
    var after := files[i := f];
    forall a, b, fd | 0 <= a < b < |after| && fd in after[a].pending ensures fd !in after[b].pending {
      if fd in after[b].pending {
        assert a != i ==> fd in files[a].pending;
        assert b != i ==> fd in files[b].pending;
        assert Waits(files, fd);
      }
    }
  }

  lemma RemoveKeeps(files: seq<File>, i: nat)
    requires FilesOk(files) && i < |files|
    ensures FilesOk(RemoveAt(files, i))
  {
    var after := RemoveAt(files, i);
    assert forall k :: 0 <= k < |after| ==> after[k] == files[if k < i then k else k + 1];
  }

  lemma AppendKeeps(files: seq<File>, f: File)
    requires FilesOk(files) && FileOk(f) && f.pending == [] && !Has(files, f.path)
    ensures FilesOk(files + [f])
  {
    var after := files + [f];
    assert forall k :: 0 <= k < |files| ==> after[k] == files[k];
  }

  /** Changing only bookkeeping (clocks, reference counts, descriptors) keeps the list well formed. */
  lemma BookkeepingKeeps(files: seq<File>, after: seq<File>)
    requires FilesOk(files) && |after| == |files|
    requires forall i :: 0 <= i < |files| ==>
      after[i] == files[i].(refCount := after[i].refCount, lastRef := after[i].lastRef, openFds := after[i].openFds,
        firstWriter := after[i].firstWriter)
    ensures FilesOk(after) && Total(after) == Total(files)
  {
    assert forall i :: 0 <= i < |files| ==>
      FileOk(files[i]) && after[i].path == files[i].path && after[i].pending == files[i].pending;
    TotalOfSameSizes(files, after);
  }
}
