/** Through which responses the content of a locked file reaches other clients all the same. */
module Disclosure {
  import opened Prelude
  import RunLength
  import opened StoreModel
  import opened StoreInvariant
  import opened Eviction
  import opened HandlerLaws
  import opened StoreRefinement
  import opened Departure
  import opened Worker
  import Wire

  // ---------------------------------------------------------------- exactly when

  /** The response to `m` gives `bytes` as the content of `p`. */
  predicate Carries(m: Wire.Message, r: Wire.Response, p: Path, bytes: seq<Byte>) {
    (m == Wire.ReadFile(p) && r == Wire.WithContent(bytes)) || (r.WithFiles? && (p, bytes) in r.files)
  }

  /** `m` asks for a listing that is long enough to reach `p`. */
  predicate Lists(s: Store, m: Wire.Message, p: Path) {
    m.ReadNFiles? && IndexOf(s.files, p) < ReadCount(m.limit, |s.files|)
  }

  /** `m` is a write that gets past all its checks. */
  predicate WritePasses(s: Store, m: Wire.Message, fd: Fd) {
    && (m.WriteFile? || m.AppendToFile?)
    && WriteAllowed(s, Call(ReqWrite(m.path, m.data), fd, 0))
    && (m.WriteFile? ==> s.files[IndexOf(s.files, m.path)].firstWriter == fd)
    && SizeOfWrite(s, IndexOf(s.files, m.path), m.data) <= s.maxStorageSize
  }

  function SizeOfWrite(s: Store, i: nat, data: seq<Byte>): nat
    requires i < |s.files|
  {
    |RunLength.Encode(s.files[i].bytes + data)|
  }

  /** `p` is among the first files of the eviction order that have to go to make room for a write to the file at `i`. */
  ghost predicate HasToGo(s: Store, i: nat, data: seq<Byte>, now: int, p: Path)
    requires i < |s.files|
  {
    var t, path, growth := Touched(s, i, now), s.files[i].path, SizeOfWrite(s, i, data) - s.files[i].contentSize;
    exists k: nat :: Shortest(t, path, growth, k) && p in Paths(EvictionOrder(t.files, t.algo, path)[..k])
  }

  /** `m` is a write that is carried out, and for which `p` has to go. */
  ghost predicate Evicts(s: Store, m: Wire.Message, fd: Fd, now: int, p: Path) {
    WritePasses(s, m, fd) && HasToGo(s, IndexOf(s.files, m.path), m.data, now, p)
  }

  lemma CarriedByList(files: seq<File>, p: Path, bytes: seq<Byte>)
    ensures (p, bytes) in Contents(files) <==> exists f :: f in files && f.path == p && f.bytes == bytes
  {
    if (p, bytes) in Contents(files) {
      var k :| 0 <= k < |files| && Contents(files)[k] == (p, bytes);
      assert files[k] in files;
    }
    if f :| f in files && f.path == p && f.bytes == bytes {
      var k :| 0 <= k < |files| && files[k] == f;
      assert Contents(files)[k] == (p, bytes);
    }
  }

  lemma ReversedHasTheSame<T>(xs: seq<T>)
    ensures forall x :: x in Reversed(xs) <==> x in xs
  {
    forall x | x in xs ensures x in Reversed(xs) {
      var k :| 0 <= k < |xs| && xs[k] == x;
      assert Reversed(xs)[|xs| - 1 - k] == x;
    }
  }

  /** A listing gives the content of `p` exactly if it reaches it. */
  lemma ListingCarries(s: Store, m: Wire.Message, p: Path, bytes: seq<Byte>)
    requires Inv(s) && View(s.files, p).Some? && m.ReadNFiles?
    ensures Carries(m, ResponseTo(m, ReadN(s, m.limit)), p, bytes)
      <==> Lists(s, m, p) && bytes == View(s.files, p).value.bytes
  {
    var i, n := IndexOf(s.files, p), ReadCount(m.limit, |s.files|);
    CarriedByList(s.files[..n], p, bytes);
    if f :| f in s.files[..n] && f.path == p && f.bytes == bytes {
      var k :| 0 <= k < n && s.files[k] == f;
      IndexIsUnique(s.files, k);
    }
    if i < n {
      assert s.files[..n][i] in s.files[..n];
    }
  }

  lemma ShortestIsUnique(s: Store, path: Path, growth: int, k: nat, l: nat)
    requires Shortest(s, path, growth, k) && Shortest(s, path, growth, l)
    ensures k == l
  {
  }

  /** The victims of a loop are the files that have to go. */
  lemma VictimsHaveToGo(s: Store, i: nat, data: seq<Byte>, now: int, p: Path)
    requires Inv(s) && i < |s.files| && SizeOfWrite(s, i, data) <= s.maxStorageSize
    ensures var growth := SizeOfWrite(s, i, data) - s.files[i].contentSize;
      HasToGo(s, i, data, now, p) <==> p in Paths(EvictUntilFits(Touched(s, i, now), s.files[i].path, growth).1)
  {
    hide EvictionOrder, EvictUntilFits, SizeOfWrite, Suffices, Shortest;
    var t, path, growth := Touched(s, i, now), s.files[i].path, SizeOfWrite(s, i, data) - s.files[i].contentSize;
    var victims := EvictUntilFits(t, path, growth).1;
    TouchedKeeps(s, i, now, p);
    EvictsShortestPrefix(t, path, i, growth);
    forall k: nat | Shortest(t, path, growth, k) ensures k == |victims| {
      ShortestIsUnique(t, path, growth, k, |victims|);
    }
  }

  /** Evicted files are stored files other than the one being written. */
  lemma VictimIsStored(s: Store, i: nat, now: int, growth: int, f: File)
    requires Inv(s) && i < |s.files| && f in EvictUntilFits(Touched(s, i, now), s.files[i].path, growth).1
    ensures View(s.files, f.path).Some? && View(s.files, f.path).value.bytes == f.bytes
  {
    hide EvictUntilFits;
    var t := Touched(s, i, now);
    TouchedKeeps(s, i, now, f.path);
    LoopSplits(t, s.files[i].path, growth);
    var k :| 0 <= k < |t.files| && t.files[k] == f;
    IndexIsUnique(t.files, k);
  }

  lemma PassedWriteDestroys(s: Store, m: Wire.Message, fd: Fd, now: int)
    requires WritePasses(s, m, fd)
    ensures var i, r := IndexOf(s.files, m.path), Write(s, m.path, m.data, fd, now);
      && r.reply == Done
      && r.destroyed == EvictUntilFits(Touched(s, i, now), m.path, SizeOfWrite(s, i, m.data) - s.files[i].contentSize).1
  {
    hide EvictUntilFits;
  }

  /** The answer to a write gives the content of `p` exactly if `p` has to go. */
  lemma PassedWriteCarries(s: Store, m: Wire.Message, fd: Fd, now: int, p: Path, bytes: seq<Byte>)
    requires Inv(s) && View(s.files, p).Some? && WritePasses(s, m, fd)
    ensures Carries(m, ResponseTo(m, Write(s, m.path, m.data, fd, now)), p, bytes)
      <==> Evicts(s, m, fd, now, p) && bytes == View(s.files, p).value.bytes
  {
    hide EvictUntilFits, HasToGo, View, Write, SizeOfWrite, Inv;
    var i := IndexOf(s.files, m.path);
    var growth := SizeOfWrite(s, i, m.data) - s.files[i].contentSize;
    var victims := EvictUntilFits(Touched(s, i, now), m.path, growth).1;
    PassedWriteDestroys(s, m, fd, now);
    VictimsHaveToGo(s, i, m.data, now, p);
    CarriedByList(Reversed(victims), p, bytes);
    ReversedHasTheSame(victims);
    forall f | f in victims && f.path == p ensures f.bytes == View(s.files, p).value.bytes {
      VictimIsStored(s, i, now, growth, f);
    }
  }

  lemma FailedWriteCarriesNothing(s: Store, m: Wire.Message, fd: Fd, now: int, p: Path, bytes: seq<Byte>)
    requires (m.WriteFile? || m.AppendToFile?) && !WritePasses(s, m, fd)
    ensures !Carries(m, ResponseTo(m, Handled(s, m, fd, now)), p, bytes)
  {
    hide WriteFitting;
  }

  /** A request that is neither a listing nor a write gives no content of a file that somebody else has locked. */
  lemma OthersCarryNothing(s: Store, m: Wire.Message, fd: Fd, now: int, p: Path, bytes: seq<Byte>)
    requires !m.ReadNFiles? && !m.WriteFile? && !m.AppendToFile?
    requires View(s.files, p).Some? && View(s.files, p).value.holder !in {0, fd}
    ensures !Carries(m, ResponseTo(m, Handled(s, m, fd, now)), p, bytes)
  {
    hide Open, Lock, Unlock, Close, Remove;
    match m {
      case OpenFile(path, flags) => OpenOutcome(s, path, IsSet(flags, O_CREATE), IsSet(flags, O_LOCK), fd, now);
      case ReadFile(path) =>
      case _ => QueueCarriesNothing(s, m, fd, now);
    }
  }

  lemma QueueCarriesNothing(s: Store, m: Wire.Message, fd: Fd, now: int)
    requires m.LockFile? || m.UnlockFile? || m.CloseFile? || m.RemoveFile?
    ensures !Handled(s, m, fd, now).reply.Content? && !Handled(s, m, fd, now).reply.Listing?
  {
  }

  /**
    While a client holds a file, another client is sent the content of that file in exactly two ways: in a listing
    that reaches it, since listings look at no lock; or in the answer to a write of its own, of another file, that
    evicts it. The content is what the holder left.
  */
  lemma LockedContentIsSentIff(s: Store, m: Wire.Message, fd: Fd, now: int, p: Path, bytes: seq<Byte>)
    requires Inv(s) && View(s.files, p).Some? && View(s.files, p).value.holder !in {0, fd}
    ensures Carries(m, ResponseTo(m, Handled(s, m, fd, now)), p, bytes)
      <==> (Lists(s, m, p) || Evicts(s, m, fd, now, p)) && bytes == View(s.files, p).value.bytes
  {
    hide Inv, View, Carries, HasToGo, ReadN, Write, WritePasses, ResponseTo;
    if m.ReadNFiles? {
      ListingCarries(s, m, p, bytes);
      assert !WritePasses(s, m, fd) by {
        NoWrite(s, m, fd);
      }
    } else if m.WriteFile? || m.AppendToFile? {
      if WritePasses(s, m, fd) {
        PassedWriteIsDone(s, m, fd, now);
        PassedWriteCarries(s, m, fd, now, p, bytes);
      } else {
        FailedWriteCarriesNothing(s, m, fd, now, p, bytes);
      }
    } else {
      NoWrite(s, m, fd);
      OthersCarryNothing(s, m, fd, now, p, bytes);
    }
  }

  lemma NoWrite(s: Store, m: Wire.Message, fd: Fd)
    requires !m.WriteFile? && !m.AppendToFile?
    ensures !WritePasses(s, m, fd)
  {
  }

  lemma PassedWriteIsDone(s: Store, m: Wire.Message, fd: Fd, now: int)
    requires WritePasses(s, m, fd)
    ensures Handled(s, m, fd, now) == Write(s, m.path, m.data, fd, now)
  {
    hide Write;
  }

  // ---------------------------------------------------------------- both ways happen

  /** A file that client 4 has created, locked and written one byte to. */
  function Locked(): File {
    File([97], [7], 1, 1, 4, [], [4], 0, 0, 0, 0)
  }

  const lockAndWrite: seq<Call> := [Call(ReqOpen([97], true, true), 4, 0), Call(ReqWrite([97], [7]), 4, 0)]
  const createAnother: Call := Call(ReqOpen([98], true, false), 5, 0)

  function WithLocked(): Store {
    Store([Locked()], 2, 1, Fifo, 1, 1, 1, 1, 0)
  }

  function WithBoth(): Store {
    Store([Locked(), NewFile([98], false, 5, 0)], 2, 1, Fifo, 2, 1, 2, 1, 0)
  }

  lemma CodeOfOne(b: Byte)
    ensures |RunLength.Encode([b])| == 1
  {
    assert [b][1..] == [];
  }

  lemma WritesFirstByte(s: Store)
    requires s == Store([NewFile([97], true, 4, 0)], 2, 1, Fifo, 1, 0, 1, 0, 0)
    ensures Write(s, [97], [7], 4, 0).store == WithLocked()
  {
    var f := NewFile([97], true, 4, 0);
    assert IndexOf([f], [97]) == 0;
    CodeOfOne(7);
    assert f.bytes + [7] == [7];
    assert [f][0 := f.Touch(0)] == [f.Touch(0)];
    assert Replace(s.(files := [f.Touch(0)]), [97], f.Touch(0), [7], 1).files == [Locked()];
  }

  lemma LocksAndWrites()
    ensures After(InitialStore(2, 1, Fifo), lockAndWrite) == WithLocked()
    ensures Proper(InitialStore(2, 1, Fifo), lockAndWrite)
  {
    hide Write;
    var s, f := InitialStore(2, 1, Fifo), NewFile([97], true, 4, 0);
    LastStep(s, [], lockAndWrite[0]);
    LastStep(s, [lockAndWrite[0]], lockAndWrite[1]);
    assert [] + [lockAndWrite[0]] == [lockAndWrite[0]] && [lockAndWrite[0]] + [lockAndWrite[1]] == lockAndWrite;
    assert [] + [f] == [f];
    assert After(s, lockAndWrite[..1]).files == [f] by {
      assert lockAndWrite[..1] == [lockAndWrite[0]];
    }
    WritesFirstByte(After(s, [lockAndWrite[0]]));
    assert lockAndWrite[..0] == [];
  }

  /** A run after which client 5, by a listing, is sent the content of a file that client 4 holds. */
  lemma ListingShowsLockedFile()
    ensures var s, m := After(InitialStore(2, 1, Fifo), lockAndWrite), Wire.ReadNFiles(0);
      && Proper(InitialStore(2, 1, Fifo), lockAndWrite)
      && View(s.files, [97]).Some? && View(s.files, [97]).value.holder == 4
      && Carries(m, ResponseTo(m, Handled(s, m, 5, 0)), [97], [7])
  {
    LocksAndWrites();
    assert IndexOf([Locked()], [97]) == 0;
    assert Contents(WithLocked().files[..1])[0] == ([97], [7]);
  }

  lemma LockedHasToGo()
    ensures EvictUntilFits(Touched(WithBoth(), 1, 0), [98], 1).1 == [Locked()]
  {
    var t := Touched(WithBoth(), 1, 0);
    assert BestOf(t.files, Fifo, [98], 2, 0);
    VictimIsUnique(t.files, Fifo, [98], 0);
    assert EvictOne(t, [98]).currStorageSize == 0;
  }

  lemma CreatesAnother()
    ensures After(InitialStore(2, 1, Fifo), lockAndWrite + [createAnother]) == WithBoth()
    ensures Proper(InitialStore(2, 1, Fifo), lockAndWrite + [createAnother])
  {
    var s, calls := InitialStore(2, 1, Fifo), lockAndWrite + [createAnother];
    LocksAndWrites();
    LastStep(s, lockAndWrite, createAnother);
    assert !Has([Locked()], [98]);
    forall k | 0 <= k < 3 ensures Admissible(After(s, calls[..k]), calls[k]) {
      assert calls[..k] == lockAndWrite[..k];
      assert lockAndWrite[..2] == lockAndWrite;
    }
  }

  lemma AppendEvictsLocked(m: Wire.Message)
    requires m == Wire.AppendToFile([98], [8])
    ensures Handled(WithBoth(), m, 5, 0).destroyed == [Locked()] && Handled(WithBoth(), m, 5, 0).reply == Done
  {
    hide EvictUntilFits, Write, Touched;
    var s := WithBoth();
    assert IndexOf(s.files, [98]) == 1;
    CodeOfOne(8);
    assert s.files[1].bytes + [8] == [8];
    LockedHasToGo();
    PassedWriteDestroys(s, m, 5, 0);
  }

  /** A run after which client 5, by a write to a file of its own, is sent the content of a file that client 4 holds. */
  lemma EvictionShowsLockedFile()
    ensures var s, m := After(InitialStore(2, 1, Fifo), lockAndWrite + [createAnother]), Wire.AppendToFile([98], [8]);
      && Proper(InitialStore(2, 1, Fifo), lockAndWrite + [createAnother])
      && View(s.files, [97]).Some? && View(s.files, [97]).value.holder == 4
      && Carries(m, ResponseTo(m, Handled(s, m, 5, 0)), [97], [7])
  {
    hide Handled;
    CreatesAnother();
    AppendEvictsLocked(Wire.AppendToFile([98], [8]));
    assert IndexOf(WithBoth().files, [97]) == 0;
    assert Contents(Reversed([Locked()]))[0] == ([97], [7]);
  }
}
