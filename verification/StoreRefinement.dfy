/**
  The storage refines a map from paths to entries. An entry is what clients can tell about a file: its bytes,
  who holds it, who waits, who has it open. Codes, sizes, counters, list positions and the replacement
  algorithm do not show, except through which files have been destroyed.
*/
module StoreRefinement {
  import opened Prelude
  import opened RunLength
  import opened StoreModel
  import opened StoreInvariant
  import opened Eviction
  import opened HandlerLaws

  datatype Entry = Entry(
    bytes: seq<Byte>,
    holder: Fd,
    queue: seq<Fd>,
    opens: seq<Fd>,
    /**
      The client that created and locked the file, until any client reads, writes, locks, unlocks or closes it with
      success. Opening it again, a request that fails and a wait for the lock leave it; StoreRuns.dfy says so over runs.
    */
    first: Fd,
    /** When the file was last used, and how often since counts were last reset. */
    used: int,
    uses: int)
  {
    function Use(now: int): Entry {
      this.(used := now, uses := uses + 1)
    }

    predicate Accessible(fd: Fd) {
      (holder == 0 || holder == fd) && fd in opens
    }

    /** The lock goes to the first in line, or to nobody. */
    function Release(): Entry {
      if queue == [] then this.(holder := 0) else this.(holder := queue[0], queue := queue[1..])
    }

    function Without(fd: Fd): Entry {
      var e := if holder == fd then Release() else this;
      e.(queue := RemoveFirst(e.queue, fd), opens := RemoveFirst(opens, fd))
    }
  }

  function EntryOf(f: File): Entry {
    Entry(f.bytes, f.lockedBy, f.pending, f.openFds, f.firstWriter, f.lastRef, f.refCount)
  }

  function View(files: seq<File>, p: Path): Option<Entry> {
    if Has(files, p) then Some(EntryOf(files[IndexOf(files, p)])) else None
  }

  function Paths(files: seq<File>): set<Path> {
    set f | f in files :: f.path
  }

  /** What a request that has just succeeded on entry `e` of its own path does to that entry. */
  function Act(e: Entry, c: Call): Entry {
    match c.req
    case ReqOpen(_, _, lock) => e.(holder := if lock then c.fd else e.holder, opens := e.opens + [c.fd])
    case ReqRead(_) => e.Use(c.now).(first := 0)
    case ReqWrite(_, data) => e.Use(c.now).(bytes := e.bytes + data, first := 0)
    case ReqLock(_) => e.Use(c.now).(holder := c.fd, first := 0)
    case ReqUnlock(_) => e.Use(c.now).Release().(first := 0)
    case ReqClose(_) => e.Use(c.now).(opens := RemoveFirst(e.opens, c.fd), first := 0)
    case _ => e
  }

  function FreshEntry(lock: bool, fd: Fd): Entry {
    Entry([], if lock then fd else 0, [], [fd], if lock then fd else 0, 0, 0)
  }

  function Target(req: Request): Path {
    match req
    case ReqReadN(_) => []
    case ReqExit => []
    case _ => req.path
  }

  /** The entry of the path a request names, after the request has been answered by `reply`. */
  function OnTarget(e: Option<Entry>, c: Call, reply: Reply): Option<Entry> {
    if c.req.ReqOpen? && c.req.create && reply.Done? then Some(FreshEntry(c.req.lock, c.fd))
    else if e.None? then None
    else if reply.Done? || reply.Content? then Some(Act(e.value, c))
    else if reply.Waiting? then Some(e.value.(queue := e.value.queue + [c.fd]))
    else if c.req.ReqWrite? && reply == Failed(E2Big) then Some(e.value.Use(c.now))
    else if c.req.ReqUnlock? && reply == Failed(EAcces) then Some(e.value.Use(c.now))
    else e
  }

  /** Use counts start again after a successful write, and after a creation that had to evict. */
  predicate Resets(c: Call, reply: Reply, destroyed: set<Path>) {
    reply.Done? && (c.req.ReqWrite? || (c.req.ReqOpen? && destroyed != {}))
  }

  /** What a step does to the entry of `p`, given its reply and which files it destroyed. */
  function Effect(e: Option<Entry>, p: Path, c: Call, reply: Reply, destroyed: set<Path>): Option<Entry> {
    if p in destroyed then None
    else
      var e' := if p != [] && p == Target(c.req) then OnTarget(e, c, reply)
                else if c.req.ReqExit? && reply.Done? && e.Some? then Some(e.value.Without(c.fd))
                else e;
      if e'.Some? && Resets(c, reply, destroyed) then Some(e'.value.(uses := 0)) else e'
  }

  // ---------------------------------------------------------------- edits of the list, path by path

  lemma ViewOfUpdate(files: seq<File>, i: nat, f: File, p: Path)
    requires i < |files| && f.path == files[i].path && IndexOf(files, f.path) == i
    ensures View(files[i := f], p) == if p == f.path then Some(EntryOf(f)) else View(files, p)
  {
    var j := IndexOf(files[i := f], p);
    if p == f.path {
      assert files[i := f][i].path == p;
    } else {
      SameIndex(files, files[i := f], p);
    }
  }

  lemma SameIndex(files: seq<File>, after: seq<File>, p: Path)
    requires |files| == |after| && forall k :: 0 <= k < |files| ==> after[k].path == files[k].path
    ensures IndexOf(after, p) == IndexOf(files, p)
  {
    var i, j := IndexOf(files, p), IndexOf(after, p);
    assert i < |files| ==> after[i].path == p;
    assert j < |after| ==> files[j].path == p;
  }

  lemma ViewOfRemoval(files: seq<File>, v: nat, p: Path)
    requires v < |files| && DistinctPaths(files)
    ensures View(RemoveAt(files, v), p) == if p == files[v].path then None else View(files, p)
  {
    var after := RemoveAt(files, v);
    assert forall k :: 0 <= k < |after| ==> after[k] == files[if k < v then k else k + 1];
    var i := IndexOf(files, p);
    if i < |files| && i != v {
      assert after[if i < v then i else i - 1] == files[i];
    }
  }

  lemma ViewOfAppend(files: seq<File>, f: File, p: Path)
    ensures View(files + [f], p)
      == if Has(files, p) then View(files, p) else if p == f.path then Some(EntryOf(f)) else None
  {
    var all, i := files + [f], IndexOf(files, p);
    assert forall k :: 0 <= k < |files| ==> all[k] == files[k];
    assert all[|files|] == f;
    assert i < |files| ==> all[i] == files[i];
  }

  function Reset(e: Option<Entry>): Option<Entry> {
    if e.Some? then Some(e.value.(uses := 0)) else None
  }

  lemma ViewOfReset(files: seq<File>, p: Path)
    ensures View(ResetRefCounts(files), p) == Reset(View(files, p))
  {
    SameIndex(files, ResetRefCounts(files), p);
  }

  lemma ViewOfLeave(files: seq<File>, fd: Fd, p: Path)
    ensures View(LeaveAll(files, fd), p) == var e := View(files, p); if e.Some? then Some(e.value.Without(fd)) else None
  {
    SameIndex(files, LeaveAll(files, fd), p);
  }

  lemma {:induction false} ViewOfEviction(s: Store, spare: Path, growth: int, p: Path)
    requires DistinctPaths(s.files)
    ensures var (rest, victims) := EvictUntilFits(s, spare, growth);
      View(rest.files, p) == if p in Paths(victims) then None else View(s.files, p)
    decreases |s.files|
  {
    var v := Victim(s.files, s.algo, spare);
    if !(s.currStorageSize + growth <= s.maxStorageSize || v == |s.files|) {
      MembersAfterRemoval(s.files, v);
      ViewOfEviction(EvictOne(s, spare), spare, growth, p);
      ViewOfRemoval(s.files, v, p);
      PathsOfCons(s.files[v], EvictUntilFits(EvictOne(s, spare), spare, growth).1);
    }
  }

  lemma PathsOfCons(f: File, files: seq<File>)
    ensures Paths([f] + files) == {f.path} + Paths(files)
  {
    assert forall g :: g in [f] + files <==> g == f || g in files;
    forall p | p in Paths(files) ensures p in Paths([f] + files) {
      var g :| g in files && g.path == p;
      assert g in [f] + files;
    }
    assert f in [f] + files;
  }

  // ---------------------------------------------------------------- every handler refines its effect

  /** Reply to a request as a function of the entry it names. */
  function ReplyFor(e: Option<Entry>, c: Call, maxStorageSize: nat): Reply
    requires !c.req.ReqReadN?
  {
    var named := !c.req.ReqExit?;
    if c.req.ReqTest? then Answer(c.fd > 0 && e.Some? && e.value.first == c.fd)
    else if (named && Target(c.req) == []) || (c.fd <= 0 && !c.req.ReqLock?) then Failed(EInval)
    else if c.req.ReqExit? then Done
    else if c.req.ReqOpen? then
      if e.Some? == c.req.create then Failed(if c.req.create then EPerm else ENoEnt)
      else if e.Some? && c.req.lock && e.value.holder != 0 then Failed(EAcces)
      else Done
    else if e.None? then Failed(ENoEnt)
    else ReplyOnEntry(e.value, c, maxStorageSize)
  }

  /** Reply to a request on a file that exists. */
  function ReplyOnEntry(e: Entry, c: Call, maxStorageSize: nat): Reply {
    match c.req
    case ReqRead(_) => if e.Accessible(c.fd) then Content(e.bytes) else Failed(EAcces)
    case ReqWrite(_, data) =>
      if !e.Accessible(c.fd) then Failed(EAcces)
      else if |Encode(e.bytes + data)| > maxStorageSize then Failed(E2Big)
      else Done
    case ReqLock(_) => if e.holder == 0 || e.holder == c.fd then Done else Waiting
    case ReqUnlock(_) => if e.holder == c.fd then Done else Failed(EAcces)
    case ReqRemove(_) => if e.holder == c.fd then Done else Failed(EAcces)
    case _ => Done
  }

  ghost predicate Refines(s: Store, c: Call, p: Path) {
    var r := Step(s, c);
    View(r.store.files, p) == Effect(View(s.files, p), p, c, r.reply, Paths(r.destroyed))
  }

  ghost predicate RepliesRight(s: Store, c: Call)
    requires !c.req.ReqReadN?
  {
    Step(s, c).reply == ReplyFor(View(s.files, Target(c.req)), c, s.maxStorageSize)
  }

  /** No file has the empty path. */
  predicate Named(s: Store) {
    !Has(s.files, [])
  }

  lemma NoEmptyPath(s: Store)
    requires Inv(s)
    ensures Named(s)
  {
    var i := IndexOf(s.files, []);
    assert i < |s.files| ==> FileOk(s.files[i]);
  }

  /** A step that does nothing to any file. */
  lemma IdleRefines(s: Store, c: Call, p: Path)
    requires Step(s, c).store.files == s.files && Step(s, c).destroyed == []
    requires p == Target(c.req) ==> OnTarget(View(s.files, p), c, Step(s, c).reply) == View(s.files, p)
    requires !Resets(c, Step(s, c).reply, {}) && !(c.req.ReqExit? && Step(s, c).reply.Done?)
    ensures Refines(s, c, p)
  {
    assert Paths([]) == {};
  }

  /** A step that edits only the file it names. */
  lemma EditRefines(s: Store, c: Call, i: nat, f: File, p: Path)
    requires i < |s.files| && i == IndexOf(s.files, Target(c.req)) && Target(c.req) != [] && f.path == Target(c.req)
    requires Step(s, c).store.files == s.files[i := f] && Step(s, c).destroyed == []
    requires OnTarget(Some(EntryOf(s.files[i])), c, Step(s, c).reply) == Some(EntryOf(f))
    requires !Resets(c, Step(s, c).reply, {}) && !c.req.ReqExit?
    ensures Refines(s, c, p)
  {
    assert Paths([]) == {};
    ViewOfUpdate(s.files, i, f, p);
  }

  lemma OpenReplies(s: Store, c: Call)
    requires Named(s) && c.req.ReqOpen?
    ensures RepliesRight(s, c)
  {
  }

  lemma OpenRefines(s: Store, c: Call, p: Path)
    requires Named(s) && DistinctPaths(s.files) && c.req.ReqOpen?
    ensures Refines(s, c, p)
  {
    var i := IndexOf(s.files, c.req.path);
    if c.req.path == [] || c.fd <= 0 || (i < |s.files|) == c.req.create {
      IdleRefines(s, c, p);
    } else if c.req.create {
      CreateRefines(s, c, p);
    } else if c.req.lock && s.files[i].lockedBy != 0 {
      IdleRefines(s, c, p);
    } else {
      EditRefines(s, c, i, Step(s, c).store.files[i], p);
    }
  }

  lemma ViewAfterAdding(files: seq<File>, f: File, p: Path)
    requires !Has(files, f.path)
    ensures View(files + [f], p) == if p == f.path then Some(EntryOf(f)) else View(files, p)
  {
    ViewOfAppend(files, f, p);
  }

  lemma ViewAfterEvictingOne(files: seq<File>, v: nat, f: File, p: Path)
    requires v < |files| && DistinctPaths(files) && !Has(files, f.path)
    ensures View(ResetRefCounts(RemoveAt(files, v)) + [f], p) ==
      if p == f.path then Some(EntryOf(f)) else if p == files[v].path then None else Reset(View(files, p))
  {
    ViewOfRemoval(files, v, p);
    ViewOfReset(RemoveAt(files, v), p);
    AbsentAfterRemoval(files, v, f.path);
    ViewAfterAdding(ResetRefCounts(RemoveAt(files, v)), f, p);
  }

  lemma PathsOfOne(f: File)
    ensures Paths([f]) == {f.path}
  {
    PathsOfCons(f, []);
    assert [f] + [] == [f];
  }

  lemma CreateByEviction(s: Store, c: Call, p: Path)
    requires Named(s) && DistinctPaths(s.files)
    requires c.req.ReqOpen? && c.req.create && c.req.path != [] && c.fd > 0 && !Has(s.files, c.req.path)
    requires s.currFileNum == s.maxFileNum && Victim(s.files, s.algo, []) < |s.files|
    ensures Refines(s, c, p)
  {
    var f, v := NewFile(c.req.path, c.req.lock, c.fd, c.now), Victim(s.files, s.algo, []);
    PathsOfOne(s.files[v]);
    ViewAfterEvictingOne(s.files, v, f, p);
    assert s.files[v].path != f.path;
  }

  lemma CreateRefines(s: Store, c: Call, p: Path)
    requires Named(s) && DistinctPaths(s.files)
    requires c.req.ReqOpen? && c.req.create && c.req.path != [] && c.fd > 0 && !Has(s.files, c.req.path)
    ensures Refines(s, c, p)
  {
    var f, v := NewFile(c.req.path, c.req.lock, c.fd, c.now), Victim(s.files, s.algo, []);
    if s.currFileNum == s.maxFileNum && v < |s.files| {
      CreateByEviction(s, c, p);
    } else {
      assert Paths([]) == {};
      ViewAfterAdding(s.files, f, p);
    }
  }

  lemma UseReplies(s: Store, c: Call)
    requires Named(s) && (c.req.ReqRead? || c.req.ReqLock? || c.req.ReqUnlock? || c.req.ReqClose?)
    ensures RepliesRight(s, c)
  {
  }

  lemma UseRefines(s: Store, c: Call, p: Path)
    requires Named(s) && (c.req.ReqRead? || c.req.ReqLock? || c.req.ReqUnlock? || c.req.ReqClose?)
    ensures Refines(s, c, p)
  {
    hide RemoveFirst, Refines;
    var i := IndexOf(s.files, Target(c.req));
    var reply := Step(s, c).reply;
    if reply.Failed? && !(c.req.ReqUnlock? && reply.error == EAcces) {
      IdleRefines(s, c, p);
    } else {
      EditRefines(s, c, i, Step(s, c).store.files[i], p);
    }
  }

  lemma RemovalRefines(s: Store, c: Call, i: nat, p: Path)
    requires DistinctPaths(s.files) && c.req.ReqRemove? && i < |s.files|
    requires Step(s, c).store.files == RemoveAt(s.files, i) && Step(s, c).destroyed == [s.files[i]]
    requires Target(c.req) == s.files[i].path
    ensures Refines(s, c, p)
  {
    hide Step, IndexOf, RemoveAt;
    ViewOfRemoval(s.files, i, p);
    PathsOfOne(s.files[i]);
  }

  lemma RemoveReplies(s: Store, c: Call)
    requires Named(s) && c.req.ReqRemove?
    ensures RepliesRight(s, c)
  {
    hide RemoveAt;
  }

  lemma RemoveRefines(s: Store, c: Call, p: Path)
    requires Named(s) && DistinctPaths(s.files) && c.req.ReqRemove?
    ensures Refines(s, c, p) && RepliesRight(s, c)
  {
    hide RemoveAt, Refines, RepliesRight;
    var i := IndexOf(s.files, c.req.path);
    RemoveReplies(s, c);
    if Step(s, c).reply.Done? {
      RemovalRefines(s, c, i, p);
    } else {
      IdleRefines(s, c, p);
    }
  }

  lemma ExitRefines(s: Store, c: Call, p: Path)
    requires Named(s) && (c.req.ReqExit? || c.req.ReqTest?)
    ensures Refines(s, c, p) && RepliesRight(s, c)
  {
    hide IndexOf, RemoveFirst, Heirs;
    ViewOfLeave(s.files, c.fd, p);
    assert Paths([]) == {};
  }

  /** The file being written is never destroyed by its own write. */
  lemma WriteSparesTarget(s: Store, path: Path, growth: int)
    requires DistinctPaths(s.files)
    ensures path !in Paths(EvictUntilFits(s, path, growth).1)
  {
    LoopSplits(s, path, growth);
  }

  /** The second half of a write, applied to the file at `i`. */
  ghost function Rewrite(s: Store, i: nat, data: seq<Byte>, size: nat): Result
    requires i < |s.files|
  {
    WriteFitting(s, s.files[i].path, s.files[i], data, size)
  }

  lemma ViewOfReplace(rest: Store, f: File, data: seq<Byte>, size: nat, p: Path)
    requires DistinctPaths(rest.files) && f in rest.files
    ensures View(Replace(rest, f.path, f, data, size).files, p) ==
      if p == f.path then Some(EntryOf(Rewritten(f, data, size))) else Reset(View(rest.files, p))
  {
    var k :| 0 <= k < |rest.files| && rest.files[k] == f;
    var files := ResetRefCounts(rest.files);
    ViewOfReset(rest.files, p);
    IndexIsUnique(files, k);
    ViewOfUpdate(files, k, Rewritten(f, data, size), p);
  }

  lemma SurvivesOwnWrite(s: Store, i: nat, size: nat)
    requires Inv(s) && i < |s.files| && size <= s.maxStorageSize
    ensures DistinctPaths(s.files)
    ensures DistinctPaths(AfterEviction(s, i, size).files) && s.files[i] in AfterEviction(s, i, size).files
  {
    RoomForWrite(s, i, size);
  }

  lemma RewriteOfOwn(s: Store, i: nat, data: seq<Byte>, size: nat)
    requires DistinctPaths(s.files) && i < |s.files|
    requires DistinctPaths(AfterEviction(s, i, size).files) && s.files[i] in AfterEviction(s, i, size).files
    ensures View(Rewrite(s, i, data, size).store.files, s.files[i].path)
      == Some(EntryOf(Rewritten(s.files[i], data, size)))
    ensures s.files[i].path !in Paths(Rewrite(s, i, data, size).destroyed)
  {
    hide EvictUntilFits, IndexOf, Rewritten;
    ViewOfReplace(AfterEviction(s, i, size), s.files[i], data, size, s.files[i].path);
    WriteSparesTarget(s, s.files[i].path, size - s.files[i].contentSize);
  }

  lemma RewriteOfOthers(s: Store, i: nat, data: seq<Byte>, size: nat, p: Path)
    requires DistinctPaths(s.files) && i < |s.files| && p != s.files[i].path
    requires DistinctPaths(AfterEviction(s, i, size).files) && s.files[i] in AfterEviction(s, i, size).files
    ensures View(Rewrite(s, i, data, size).store.files, p) ==
      if p in Paths(Rewrite(s, i, data, size).destroyed) then None else Reset(View(s.files, p))
  {
    hide EvictUntilFits, View, Rewritten;
    ViewOfReplace(AfterEviction(s, i, size), s.files[i], data, size, p);
    ViewOfEviction(s, s.files[i].path, size - s.files[i].contentSize, p);
  }

  function Touched(s: Store, i: nat, now: int): Store
    requires i < |s.files|
  {
    s.(files := s.files[i := s.files[i].Touch(now)])
  }

  lemma TouchedKeeps(s: Store, i: nat, now: int, p: Path)
    requires Inv(s) && i < |s.files|
    ensures Inv(Touched(s, i, now))
    ensures View(Touched(s, i, now).files, p)
      == if p == s.files[i].path then Some(EntryOf(s.files[i].Touch(now))) else View(s.files, p)
  {
    assert FileOk(s.files[i]);
    EditKeeps(s, i, s.files[i].Touch(now));
    IndexIsUnique(s.files, i);
    ViewOfUpdate(s.files, i, s.files[i].Touch(now), p);
  }

  lemma WriteReplies(s: Store, c: Call)
    requires Named(s) && c.req.ReqWrite?
    ensures RepliesRight(s, c)
  {
  }

  /** Whether a write gets past its checks. */
  predicate WriteAllowed(s: Store, c: Call)
    requires c.req.ReqWrite?
  {
    var i := IndexOf(s.files, c.req.path);
    c.req.path != [] && c.fd > 0 && i < |s.files| && s.files[i].Accessible(c.fd)
  }

  /** A write that fits refines its effect. */
  lemma FittingWriteRefines(s: Store, c: Call, i: nat, size: nat, p: Path)
    requires Inv(s) && c.req.ReqWrite? && i < |s.files| && s.files[i].path == c.req.path
    requires size == |Encode(s.files[i].bytes + c.req.data)| <= s.maxStorageSize
    requires Step(s, c) == Rewrite(Touched(s, i, c.now), i, c.req.data, size) && Step(s, c).reply == Done
    ensures Refines(s, c, p)
  {
    hide Step, EvictUntilFits, Inv, Rewrite, View, Encode;
    TouchedKeeps(s, i, c.now, p);
    ViewOfStored(s, i);
    SurvivesOwnWrite(Touched(s, i, c.now), i, size);
    RewriteOfOwn(Touched(s, i, c.now), i, c.req.data, size);
    if p != c.req.path {
      RewriteOfOthers(Touched(s, i, c.now), i, c.req.data, size, p);
    }
  }

  lemma ViewOfStored(s: Store, i: nat)
    requires Inv(s) && i < |s.files|
    ensures s.files[i].path != [] && View(s.files, s.files[i].path) == Some(EntryOf(s.files[i]))
  {
    assert FileOk(s.files[i]);
    IndexIsUnique(s.files, i);
  }

  lemma AllowedWriteRefines(s: Store, c: Call, p: Path)
    requires Inv(s) && c.req.ReqWrite? && WriteAllowed(s, c)
    ensures Refines(s, c, p)
  {
    hide EvictUntilFits, Inv;
    var i := IndexOf(s.files, c.req.path);
    var size := |Encode(s.files[i].bytes + c.req.data)|;
    if size <= s.maxStorageSize {
      assert Step(s, c) == Rewrite(Touched(s, i, c.now), i, c.req.data, size);
      FittingWriteRefines(s, c, i, size, p);
    } else {
      TouchedKeeps(s, i, c.now, p);
      assert Step(s, c) == Fail(Touched(s, i, c.now), E2Big);
    }
  }

  lemma WriteRefines(s: Store, c: Call, p: Path)
    requires Inv(s) && c.req.ReqWrite?
    ensures Refines(s, c, p)
  {
    if WriteAllowed(s, c) {
      AllowedWriteRefines(s, c, p);
    } else {
      NoEmptyPath(s);
    }
  }

  /** The `k`-th pair listed is the path of the `k`-th file, in order of creation, and the bytes of its entry. */
  ghost predicate ListsRight(s: Store, c: Call)
    requires c.req.ReqReadN?
  {
    && Step(s, c).reply.Listing?
    && var listed := Step(s, c).reply.files;
      && |listed| == ReadCount(c.req.limit, |s.files|)
      && forall k {:trigger listed[k]} :: 0 <= k < |listed| ==>
        && IndexOf(s.files, listed[k].0) == k
        && View(s.files, listed[k].0).Some? && View(s.files, listed[k].0).value.bytes == listed[k].1
  }

  lemma ListingRefines(s: Store, c: Call, p: Path)
    requires c.req.ReqReadN?
    ensures Refines(s, c, p)
  {
  }

  lemma PathsAreDistinct(s: Store)
    requires Inv(s)
    ensures DistinctPaths(s.files)
  {
  }

  lemma ListingReplies(s: Store, c: Call)
    requires DistinctPaths(s.files) && c.req.ReqReadN?
    ensures ListsRight(s, c)
  {
    var listed := Step(s, c).reply.files;
    forall k | 0 <= k < |listed|
      ensures listed[k] == (s.files[k].path, s.files[k].bytes) && IndexOf(s.files, listed[k].0) == k
    {
      IndexIsUnique(s.files, k);
    }
  }

  /** Over every path, a handler does exactly what `Effect` says. */
  lemma StepRefines(s: Store, c: Call, p: Path)
    requires Inv(s)
    ensures Refines(s, c, p)
    ensures if c.req.ReqReadN? then ListsRight(s, c) else RepliesRight(s, c)
  {
    hide Step, FilesOk;
    NoEmptyPath(s);
    assert DistinctPaths(s.files) by {
      PathsAreDistinct(s);
    }
    match c.req {
      case ReqOpen(_, _, _) => OpenRefines(s, c, p); OpenReplies(s, c);
      case ReqWrite(_, _) => WriteRefines(s, c, p); WriteReplies(s, c);
      case ReqRead(_) => UseRefines(s, c, p); UseReplies(s, c);
      case ReqLock(_) => UseRefines(s, c, p); UseReplies(s, c);
      case ReqUnlock(_) => UseRefines(s, c, p); UseReplies(s, c);
      case ReqClose(_) => UseRefines(s, c, p); UseReplies(s, c);
      case ReqRemove(_) => RemoveRefines(s, c, p);
      case ReqReadN(_) => ListingRefines(s, c, p); ListingReplies(s, c);
      case ReqTest(_) => ExitRefines(s, c, p);
      case ReqExit => ExitRefines(s, c, p);
    }
  }
}
