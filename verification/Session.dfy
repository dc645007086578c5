/** Whole sessions: what a client sends is understood, and what it is sent, at once or later, is what it expects. */
module Session {
  import opened Prelude
  import RunLength
  import opened StoreModel
  import opened StoreInvariant
  import opened Eviction
  import opened HandlerLaws
  import opened StoreRefinement
  import LockLaws
  import StoreRuns
  import opened WaiterLaws
  import opened FilesystemApi
  import opened Worker
  import Wire

  // ---------------------------------------------------------------- what the storage can hold

  /** No stored content takes more than ten digits for its length: a code of n bytes stands for 3n bytes at most. */
  predicate Configured(s: Store) {
    3 * s.maxStorageSize < Wire.MAX_LENGTH
  }

  ghost predicate SendablePaths(files: seq<File>) {
    forall k {:trigger files[k]} :: 0 <= k < |files| ==> Wire.SendablePath(files[k].path)
  }

  /** A store as clients of a server with such a configuration find it. */
  ghost predicate Served(s: Store) {
    Inv(s) && Configured(s) && SendablePaths(s.files)
  }

  /** A server that has just started has such a store. */
  lemma InitialIsServed(maxFileNum: nat, maxStorageSize: nat, algo: Algo)
    requires maxFileNum > 0 && 3 * maxStorageSize < Wire.MAX_LENGTH
    ensures Served(InitialStore(maxFileNum, maxStorageSize, algo))
  {
    HandlerLaws.InitialInv(maxFileNum, maxStorageSize, algo);
  }

  /** A file whose name and content fit a frame of a listing. */
  ghost predicate SendableFile(f: File) {
    Wire.SendablePath(f.path) && |f.bytes| < Wire.MAX_LENGTH
  }

  ghost predicate AllSendable(files: seq<File>) {
    forall k {:trigger files[k]} :: 0 <= k < |files| ==> SendableFile(files[k])
  }

  /** The configuration alone bounds every content. */
  lemma StoredIsSendable(s: Store)
    requires Served(s)
    ensures AllSendable(s.files)
  {
    hide Wire.SendablePath;
    forall k | 0 <= k < |s.files| ensures SendableFile(s.files[k]) {
      ContentIsBounded(s, k);
    }
  }

  lemma ContentIsBounded(s: Store, k: nat)
    requires Inv(s) && k < |s.files|
    ensures |s.files[k].bytes| <= 3 * s.maxStorageSize
  {
    hide RunLength.Encode;
    forall i | 0 <= i < |s.files| ensures s.files[i].contentSize >= 0 {
      assert FileOk(s.files[i]);
    }
    TotalIsNatural(s.files);
    assert FileOk(s.files[k]);
    RunLength.EncodedSize(s.files[k].bytes);
  }

  // ---------------------------------------------------------------- over every run

  /** Names come from the client functions, which send no others. */
  predicate FromClients(calls: seq<Call>) {
    forall k :: 0 <= k < |calls| && calls[k].req.ReqOpen? ==> Wire.SendablePath(calls[k].req.path)
  }

  lemma WriteKeepsConfiguration(s: Store, c: Call)
    requires c.req.ReqWrite?
    ensures Step(s, c).store.maxStorageSize == s.maxStorageSize
  {
    hide Write, Step, EvictUntilFits;
    StoreRuns.WriteForms(s, c);
    if WriteAllowed(s, c) && !Step(s, c).reply.Failed? {
      var i := IndexOf(s.files, c.req.path);
      var size := |RunLength.Encode(s.files[i].bytes + c.req.data)|;
      LoopCounts(Touched(s, i, c.now), s.files[i].path, size - s.files[i].contentSize);
    }
  }

  lemma StepKeepsConfiguration(s: Store, c: Call)
    ensures Step(s, c).store.maxStorageSize == s.maxStorageSize
  {
    hide Write, IndexOf, RemoveFirst;
    if c.req.ReqWrite? {
      WriteKeepsConfiguration(s, c);
    }
  }

  /** A step brings no name into the store but the one a client asks it to create. */
  lemma NoOtherName(s: Store, c: Call, p: Path)
    requires Inv(s) && Has(Step(s, c).store.files, p)
    ensures Has(s.files, p) || (c.req.ReqOpen? && c.req.path == p)
  {
    hide Step;
    StepRefines(s, c, p);
  }

  lemma StepKeepsPaths(s: Store, c: Call)
    requires Inv(s) && SendablePaths(s.files)
    requires c.req.ReqOpen? ==> Wire.SendablePath(c.req.path)
    ensures SendablePaths(Step(s, c).store.files)
  {
    hide Step, Inv, Wire.SendablePath;
    var after := Step(s, c).store.files;
    forall k | 0 <= k < |after| ensures Wire.SendablePath(after[k].path) {
      LockLaws.MemberIsFound(after, after[k]);
      NoOtherName(s, c, after[k].path);
      if Has(s.files, after[k].path) {
        assert s.files[IndexOf(s.files, after[k].path)].path == after[k].path;
      }
    }
  }

  /** Every store a run reaches is one whose names and contents fit their frames. */
  lemma {:induction false} RunIsServed(s: Store, calls: seq<Call>)
    requires Served(s) && Proper(s, calls) && FromClients(calls)
    ensures Served(After(s, calls))
    decreases |calls|
  {
    hide Step, Inv, SendablePaths, Wire.SendablePath;
    if calls != [] {
      var n := |calls| - 1;
      ProperPrefix(s, calls, n);
      RunIsServed(s, calls[..n]);
      StepKeepsInv(After(s, calls[..n]), calls[n]);
      StepKeepsConfiguration(After(s, calls[..n]), calls[n]);
      StepKeepsPaths(After(s, calls[..n]), calls[n]);
    }
  }

  // ---------------------------------------------------------------- one response

  /** A limit that lost its last digit on the way still selects the same files. */
  lemma UnderstoodIsHandledAlike(s: Store, m: Wire.Message, fd: Fd, now: int)
    requires Wire.Sendable(m)
    ensures Handled(s, Wire.Understood(m), fd, now) == Handled(s, m, fd, now)
    ensures ResponseTo(Wire.Understood(m), Handled(s, m, fd, now)) == ResponseTo(m, Handled(s, m, fd, now))
  {
    hide Open, Read, Write, Lock, Unlock, Close, Remove;
    if m.ReadNFiles? {
      assert ReadCount(Wire.ReceivedLimit(m.limit), |s.files|) == ReadCount(m.limit, |s.files|);
    }
  }

  lemma VictimIsSendable(s: Store, path: Path, growth: int, k: nat)
    requires FilesOk(s.files) && AllSendable(s.files) && k < |EvictUntilFits(s, path, growth).1|
    ensures SendableFile(EvictUntilFits(s, path, growth).1[k])
  {
    hide SendableFile;
    LoopSplits(s, path, growth);
    var f := EvictUntilFits(s, path, growth).1[k];
    assert f in s.files;
  }

  lemma VictimsOfWriteAreSendable(s: Store, i: nat, data: seq<Byte>, now: int)
    requires Inv(s) && i < |s.files| && AllSendable(s.files)
    ensures AllSendable(AllowedWrite(s, i, data, now).destroyed)
  {
    hide EvictUntilFits, RunLength.Encode, Wire.SendablePath;
    TouchedKeepsInv(s, i, now);
    var f := s.files[i].Touch(now);
    var touched, size := s.(files := s.files[i := f]), |RunLength.Encode(f.bytes + data)|;
    var victims := EvictUntilFits(touched, f.path, size - f.contentSize).1;
    forall k | 0 <= k < |victims| ensures SendableFile(victims[k]) {
      VictimIsSendable(touched, f.path, size - f.contentSize, k);
    }
  }

  lemma DestroyedAreSendable(s: Store, path: Path, data: seq<Byte>, fd: Fd, now: int)
    requires Inv(s) && AllSendable(s.files)
    ensures AllSendable(Write(s, path, data, fd, now).destroyed)
  {
    hide WriteFitting, Inv, Wire.SendablePath;
    if Has(s.files, path) {
      VictimsOfWriteAreSendable(s, IndexOf(s.files, path), data, now);
    }
  }

  lemma WrittenFits(s: Store, path: Path, data: seq<Byte>, fd: Fd, now: int, m: Wire.Message)
    requires Served(s) && (m == Wire.AppendToFile(path, data) || m == Wire.WriteFile(path, data))
    ensures Wire.Answers(m, ResponseTo(m, Write(s, path, data, fd, now)))
  {
    hide Write, Inv, Wire.SendablePath;
    StoredIsSendable(s);
    WriteOutcome(s, path, data, fd, now);
    DestroyedAreSendable(s, path, data, fd, now);
  }

  /** Every request that is answered at once gets a response of the kind its client expects. */
  lemma ResponseFits(s: Store, m: Wire.Message, fd: Fd, now: int)
    requires Served(s) && !Handled(s, m, fd, now).reply.Waiting?
    ensures Wire.Answers(m, ResponseTo(m, Handled(s, m, fd, now)))
  {
    hide Open, Write, Inv, Wire.SendablePath;
    StoredIsSendable(s);
    match m {
      case OpenFile(path, flags) => OpenOutcome(s, path, IsSet(flags, O_CREATE), IsSet(flags, O_LOCK), fd, now);
      case WriteFile(path, data) => WrittenFits(s, path, data, fd, now, m);
      case AppendToFile(path, data) => WrittenFits(s, path, data, fd, now, m);
      case _ =>
    }
  }

  lemma RefusalIsTaken(m: Wire.Message, later: seq<Byte>)
    ensures Wire.TakeResponse(m, [Wire.DigitOf(Wire.BAD_REQUEST)] + later)
      == Some((Wire.Refused(Wire.BAD_REQUEST), later))
  {
    assert ([Wire.DigitOf(Wire.BAD_REQUEST)] + later)[1..] == later;
  }

  /** The client reads a response by the kind of its request only, so a limit cut short on the way does not matter. */
  lemma UnderstoodIsAnsweredAlike(m: Wire.Message, stream: seq<Byte>)
    ensures Wire.TakeResponse(Wire.Understood(m), stream) == Wire.TakeResponse(m, stream)
  {
  }

  /** What a client whose request has come to `d` makes of the beginning of what it is sent. */
  function ResponseToDemand(d: Wire.Demand, r: Result): Wire.Response {
    if d.Proper? then ResponseTo(d.m, r) else Wire.Refused(Wire.BAD_REQUEST)
  }

  lemma ProperKeepsStep(s: Store, m: Wire.Message, fd: Fd, now: int, sent: seq<Byte>, notices: seq<(Fd, nat)>,
                        pipe: seq<Fd>, later: seq<Byte>)
    requires Served(s) && !Handled(s, m, fd, now).reply.Waiting?
    requires ServedAs(m, Handled(s, m, fd, now), fd, sent, notices, pipe)
    ensures Wire.TakeResponse(m, sent + later) == Some((ResponseTo(m, Handled(s, m, fd, now)), later))
  {
    hide Handled, ResponseTo, Inv, Wire.TakeResponse, Wire.Sent, Wire.Answers;
    ResponseFits(s, m, fd, now);
    Wire.ResponseIsTaken(m, ResponseTo(m, Handled(s, m, fd, now)), later);
  }

  /** After a bad limit the worker sends a refusal, and a listing all the same. */
  lemma BadLimitSendsMore(s: Store, garbage: int, fd: Fd, now: int, sent: seq<Byte>, notices: seq<(Fd, nat)>,
                          pipe: seq<Fd>)
    requires AnsweredAs(Wire.BadLimit, garbage, Outcome(s, Wire.BadLimit, garbage, fd, now), fd, sent, notices, pipe)
    ensures sent == [Wire.DigitOf(Wire.BAD_REQUEST)] + sent[1..] && sent[1..] != []
  {
    assert sent == [sent[0]] + sent[1..];
  }

  /**
    For every demand that is answered at once, of whatever bytes it was made: the client reads the response it should,
    and it reads all that it was sent, and so stays in step, if and only if the demand is not a bad limit. After a bad
    limit it takes the refusal for the whole response, and what follows is left in its stream.
  */
  lemma DemandKeepsStepIff(s: Store, d: Wire.Demand, garbage: int, fd: Fd, now: int, m: Wire.Message,
                           sent: seq<Byte>, notices: seq<(Fd, nat)>, pipe: seq<Fd>, later: seq<Byte>)
    requires Served(s) && !Outcome(s, d, garbage, fd, now).reply.Waiting?
    requires AnsweredAs(d, garbage, Outcome(s, d, garbage, fd, now), fd, sent, notices, pipe)
    requires d.Proper? ==> d.m == m || d.m == Wire.Understood(m)
    requires d.BadLimit? ==> m.ReadNFiles?
    ensures Wire.TakeResponse(m, sent + later).Some?
    ensures Wire.TakeResponse(m, sent + later).value.0 == ResponseToDemand(d, Outcome(s, d, garbage, fd, now))
    ensures Wire.TakeResponse(m, sent + later).value.1 == later <==> !d.BadLimit?
  {
    hide Served, Handled, ResponseTo, ServedAs, Wire.TakeResponse;
    match d {
      case Proper(m') =>
        ProperKeepsStep(s, m', fd, now, sent, notices, pipe, later);
        UnderstoodIsAnsweredAlike(m, sent + later);
      case BadLimit =>
        BadLimitSendsMore(s, garbage, fd, now, sent, notices, pipe);
        ConcatAssociates([Wire.DigitOf(Wire.BAD_REQUEST)], sent[1..], later);
        RefusalIsTaken(m, sent[1..] + later);
        assert |sent[1..] + later| > |later|;
      case _ =>
        RefusalIsTaken(m, later);
    }
  }

  /** Ten letters in the place of a limit. */
  const nonsense: seq<Byte> := Repeat(120, Wire.METADATA_SIZE)

  /** A request that is a bad limit: whatever the store holds, its client is out of step once it has been answered. */
  lemma NonsenseLosesStep(s: Store, garbage: int, fd: Fd, now: int, limit: int, rest: seq<Byte>,
                          sent: seq<Byte>, notices: seq<(Fd, nat)>, pipe: seq<Fd>, later: seq<Byte>)
    requires Served(s)
    requires AnsweredAs(Wire.BadLimit, garbage, Outcome(s, Wire.BadLimit, garbage, fd, now), fd, sent, notices, pipe)
    ensures Wire.TakeRequest([Wire.DigitOf(1)] + nonsense + rest) == Some((Wire.BadLimit, rest))
    ensures Wire.TakeResponse(Wire.ReadNFiles(limit), sent + later)
      == Some((Wire.Refused(Wire.BAD_REQUEST), sent[1..] + later))
    ensures sent[1..] + later != later
  {
    hide Served, ServedAs, Wire.TakeResponse, Wire.TakeLimit;
    Wire.NoLimitIsTaken(nonsense, rest);
    assert ([Wire.DigitOf(1)] + nonsense + rest)[1..] == nonsense + rest;
    BadLimitSendsMore(s, garbage, fd, now, sent, notices, pipe);
    ConcatAssociates([Wire.DigitOf(Wire.BAD_REQUEST)], sent[1..], later);
    RefusalIsTaken(Wire.ReadNFiles(limit), sent[1..] + later);
    assert |sent[1..] + later| > |later|;
  }

  /** What a client that had to wait makes of the notice it is sent in the end. */
  function Noticed(code: nat): Wire.Response {
    if code == Wire.OK then Wire.Accepted else Wire.Refused(code)
  }

  /** The delayed answer to a client that had to wait is a response to its lock request, like one given at once. */
  lemma DelayedResponseFits(r: Result, path: Path, k: nat, later: seq<Byte>)
    requires k < |Told(r)|
    ensures Told(r)[k].1 < 8 && Wire.Answers(Wire.LockFile(path), Noticed(Told(r)[k].1))
    ensures Wire.TakeResponse(Wire.LockFile(path), [Wire.DigitOf(Told(r)[k].1)] + later)
      == Some((if k < |r.gone| then Wire.Refused(Wire.FILE_NOT_FOUND) else Wire.Accepted, later))
    ensures Told(r)[k].0 == (r.gone + r.granted)[k]
  {
    var answer := Noticed(Told(r)[k].1);
    Wire.ResponseIsTaken(Wire.LockFile(path), answer, later);
    assert Wire.Sent(answer) == [Wire.DigitOf(Told(r)[k].1)];
  }

  /**
    A whole exchange: the server understands the request as sent, and the client reads the response of its own
    request out of the stream, whatever comes after it on either side.
  */
  lemma ExchangeIsFaithful(s: Store, m: Wire.Message, fd: Fd, now: int, more: seq<Byte>, later: seq<Byte>)
    requires Served(s) && Wire.Sendable(m) && !Handled(s, m, fd, now).reply.Waiting?
    ensures Wire.TakeRequest(Wire.Printed(m) + more) == Some((Wire.Proper(Wire.Understood(m)), more))
    ensures var r := ResponseTo(m, Handled(s, m, fd, now));
      Wire.StatusOf(r) < 8 && Wire.TakeResponse(m, Wire.Sent(r) + later) == Some((r, later))
    ensures Handled(s, Wire.Understood(m), fd, now) == Handled(s, m, fd, now)
  {
    hide Handled, ResponseTo, Wire.TakeRequest, Wire.TakeResponse, Inv, Wire.Sendable;
    Wire.RequestIsTaken(m, more);
    ResponseFits(s, m, fd, now);
    Wire.ResponseIsTaken(m, ResponseTo(m, Handled(s, m, fd, now)), later);
    UnderstoodIsHandledAlike(s, m, fd, now);
  }

  // ---------------------------------------------------------------- whole sessions

  /**
    One handler call for a client: for the request `m`, for the second half of a WRITE_FILE whose test was passed by
    an earlier call, or because the client has closed its connection.
  */
  datatype Event =
    | Asks(fd: Fd, m: Wire.Message, now: int)
    | Writes(fd: Fd, m: Wire.Message, now: int)
    | Leaves(fd: Fd)

  predicate EventOk(e: Event) {
    match e
    case Asks(_, m, _) => Wire.Sendable(m)
    case Writes(_, m, _) => m.WriteFile? && Wire.Sendable(m)
    case Leaves(_) => true
  }

  predicate EventsOk(events: seq<Event>) {
    forall k {:trigger events[k]} :: 0 <= k < |events| ==> EventOk(events[k])
  }

  /** The handler that the worker calls for a request, as it has understood it. */
  function RequestOf(m: Wire.Message): Request {
    match m
    case ReadNFiles(limit) => ReqReadN(Wire.ReceivedLimit(limit))
    case OpenFile(path, flags) => ReqOpen(path, IsSet(flags, O_CREATE), IsSet(flags, O_LOCK))
    case ReadFile(path) => ReqRead(path)
    case WriteFile(path, _) => ReqTest(path)
    case AppendToFile(path, data) => ReqWrite(path, data)
    case LockFile(path) => ReqLock(path)
    case UnlockFile(path) => ReqUnlock(path)
    case CloseFile(path) => ReqClose(path)
    case RemoveFile(path) => ReqRemove(path)
  }

  function CallOf(e: Event): Call
    requires EventOk(e)
  {
    match e
    case Asks(fd, m, now) => Call(RequestOf(m), fd, now)
    case Writes(fd, m, now) => Call(ReqWrite(m.path, m.data), fd, now)
    case Leaves(fd) => Call(ReqExit, fd, 0)
  }

  function CallsOf(events: seq<Event>): (calls: seq<Call>)
    requires EventsOk(events)
    ensures |calls| == |events| && forall k :: 0 <= k < |calls| ==> calls[k] == CallOf(events[k])
  {
    seq(|events|, k requires 0 <= k < |events| => CallOf(events[k]))
  }

  /** A first write that has passed its test is answered later, and so is a lock request that has to wait. */
  predicate IsAnswered(e: Event, r: Result) {
    !e.Leaves? && !r.reply.Waiting? && r.reply != Answer(true)
  }

  predicate IsAsked(e: Event, r: Result) {
    !e.Leaves? && r.reply != Answer(true)
  }

  /** What the client of an event is sent by its worker. */
  function OwnResponse(e: Event, r: Result): Wire.Response
    requires !e.Leaves?
  {
    if r.reply.Answer? then Wire.Refused(Wire.FORBIDDEN) else ResponseTo(e.m, r)
  }

  /** What `w` is sent by the workers of other clients. */
  function NoticesTo(notices: seq<(Fd, nat)>, w: Fd): seq<Wire.Response> {
    if notices == [] then []
    else (if notices[0].0 == w then [Noticed(notices[0].1)] else []) + NoticesTo(notices[1..], w)
  }

  /** A connection, as its client sees it: the requests that the server has taken, and the responses that have come. */
  datatype Connection = Connection(asked: seq<Wire.Message>, answers: seq<Wire.Response>)

  function Extended(k: Connection, e: Event, r: Result, w: Fd): Connection {
    if e.fd != w then k.(answers := k.answers + NoticesTo(Told(r), w))
    else if e.Leaves? then Connection([], [])
    else
      Connection(k.asked + (if IsAsked(e, r) then [e.m] else []),
                 k.answers + (if IsAnswered(e, r) then [OwnResponse(e, r)] else []) + NoticesTo(Told(r), w))
  }

  /** The connection of `w` after the events; a descriptor that is used again starts a new one. */
  ghost function ConnectionAfter(s: Store, events: seq<Event>, w: Fd): Connection
    requires EventsOk(events)
    decreases |events|
  {
    if events == [] then Connection([], [])
    else
      var n := |events| - 1;
      Extended(ConnectionAfter(s, events[..n], w), events[n], StoreRuns.Last(s, CallsOf(events)), w)
  }

  /** The responses so far answer the requests so far in order, but for the last `n`: a lock that is waited for. */
  ghost predicate InStep(k: Connection, n: nat) {
    && |k.asked| == |k.answers| + n && n <= 1
    && Wire.AllAnswer(k.asked[..|k.answers|], k.answers)
    && (n == 1 ==> k.asked[|k.answers|].LockFile?)
    && forall i {:trigger k.asked[i]} :: 0 <= i < |k.asked| ==> Wire.Sendable(k.asked[i])
  }

  lemma AllAnswerOneMore(ms: seq<Wire.Message>, rs: seq<Wire.Response>, m: Wire.Message, r: Wire.Response)
    requires Wire.AllAnswer(ms, rs) && Wire.Answers(m, r)
    ensures Wire.AllAnswer(ms + [m], rs + [r])
  {
    hide Wire.Answers;
    forall k | 0 <= k < |ms| + 1 ensures Wire.Answers((ms + [m])[k], (rs + [r])[k]) {
      assert k < |ms| ==> Wire.Answers(ms[k], rs[k]);
    }
  }

  lemma AsksAndGets(k: Connection, m: Wire.Message, r: Wire.Response)
    requires InStep(k, 0) && Wire.Sendable(m) && Wire.Answers(m, r)
    ensures InStep(Connection(k.asked + [m], k.answers + [r]), 0)
  {
    hide Wire.Answers, Wire.Sendable, Wire.AllAnswer;
    AllAnswerOneMore(k.asked, k.answers, m, r);
    assert k.asked[..|k.answers|] == k.asked;
    assert (k.asked + [m])[..|k.answers| + 1] == k.asked + [m];
  }

  lemma AsksAndWaits(k: Connection, m: Wire.Message)
    requires InStep(k, 0) && Wire.Sendable(m) && m.LockFile?
    ensures InStep(Connection(k.asked + [m], k.answers), 1)
  {
    hide Wire.Answers, Wire.Sendable, Wire.AllAnswer;
    assert k.asked[..|k.answers|] == k.asked == (k.asked + [m])[..|k.answers|];
  }

  lemma GetsAtLast(k: Connection, r: Wire.Response)
    requires InStep(k, 1) && (r == Wire.Accepted || r == Wire.Refused(Wire.FILE_NOT_FOUND))
    ensures InStep(Connection(k.asked, k.answers + [r]), 0)
  {
    hide Wire.Sendable, Wire.AllAnswer;
    var n := |k.answers|;
    AllAnswerOneMore(k.asked[..n], k.answers, k.asked[n], r);
    assert k.asked[..n] + [k.asked[n]] == k.asked == k.asked[..n + 1];
  }

  lemma {:induction false} NoticesToAppend(a: seq<(Fd, nat)>, b: seq<(Fd, nat)>, w: Fd)
    ensures NoticesTo(a + b, w) == NoticesTo(a, w) + NoticesTo(b, w)
  {
    if a == [] {
      assert a + b == b;
    } else {
      var head := if a[0].0 == w then [Noticed(a[0].1)] else [];
      NoticesToAppend(a[1..], b, w);
      assert (a + b)[1..] == a[1..] + b;
      ConcatAssociates(head, NoticesTo(a[1..], w), NoticesTo(b, w));
    }
  }

  lemma {:induction false} NoticesOfCode(fds: seq<Fd>, code: nat, w: Fd)
    ensures NoticesTo(Notices(fds, code), w) == Repeat(Noticed(code), Count(fds, w))
  {
    if fds != [] {
      NoticesOfCode(fds[1..], code, w);
      assert Notices(fds, code)[1..] == Notices(fds[1..], code);
    }
  }

  /** As many notices go to `w` as the handler has answers for it. */
  lemma NoticesOfStep(r: Result, w: Fd)
    ensures NoticesTo(Told(r), w)
      == Repeat(Wire.Refused(Wire.FILE_NOT_FOUND), Count(r.gone, w)) + Repeat(Wire.Accepted, Count(r.granted, w))
    ensures |NoticesTo(Told(r), w)| == Count(r.gone, w) + Count(r.granted, w)
    ensures forall k :: 0 <= k < |NoticesTo(Told(r), w)| ==>
      NoticesTo(Told(r), w)[k] == Wire.Accepted || NoticesTo(Told(r), w)[k] == Wire.Refused(Wire.FILE_NOT_FOUND)
  {
    NoticesToAppend(Notices(r.gone, Wire.FILE_NOT_FOUND), Notices(r.granted, Wire.OK), w);
    NoticesOfCode(r.gone, Wire.FILE_NOT_FOUND, w);
    NoticesOfCode(r.granted, Wire.OK, w);
  }

  /** Only a lock request may have to wait, and then nobody is notified. */
  lemma OnlyLocksWait(s: Store, c: Call)
    ensures Step(s, c).reply.Waiting? ==> c.req.ReqLock? && Step(s, c).gone == [] && Step(s, c).granted == []
    ensures Step(s, c).reply.Answer? <==> c.req.ReqTest?
  {
    hide IndexOf, Victim, EvictOne, EvictUntilFits, Replace, RemoveFirst, RunLength.Encode;
  }

  lemma OwnResponseFits(s: Store, e: Event)
    requires Served(s) && EventOk(e) && IsAnswered(e, Step(s, CallOf(e)))
    ensures Wire.Answers(e.m, OwnResponse(e, Step(s, CallOf(e))))
  {
    hide Inv, Open, Read, Write, Lock, Unlock, Close, Remove, ReadN, ResponseTo;
    hide Wire.SendablePath, Configured, SendablePaths;
    if e.Writes? {
      OnlyLocksWait(s, CallOf(e));
      WrittenFits(s, e.m.path, e.m.data, e.fd, e.now, e.m);
    } else if !e.m.WriteFile? {
      OnlyLocksWait(s, CallOf(e));
      UnderstoodIsHandledAlike(s, e.m, e.fd, e.now);
      assert Step(s, CallOf(e)) == Handled(s, Wire.Understood(e.m), e.fd, e.now);
      ResponseFits(s, e.m, e.fd, e.now);
    }
  }

  /** The reply tells apart the events after which a client is answered, waits, or has a write to go on with. */
  lemma KindOfEvent(s: Store, e: Event)
    requires EventOk(e)
    ensures CallOf(e).fd == e.fd
    ensures e.Leaves? ==> !Step(s, CallOf(e)).reply.Waiting?
    ensures Step(s, CallOf(e)).reply.Waiting? ==>
      e.Asks? && e.m.LockFile? && Step(s, CallOf(e)).gone == [] && Step(s, CallOf(e)).granted == []
    ensures !e.Leaves? ==> Wire.Sendable(e.m)
  {
    hide Step, Wire.SendablePath;
    OnlyLocksWait(s, CallOf(e));
  }

  /** What a client asks for, and is sent for it. */
  lemma OwnTurn(s: Store, e: Event, k: Connection)
    requires Served(s) && EventOk(e) && Admissible(s, CallOf(e)) && InStep(k, WaiterLaws.Waiting(s.files, e.fd))
    ensures InStep(Extended(k, e, Step(s, CallOf(e)), e.fd), WaiterLaws.Waiting(Step(s, CallOf(e)).store.files, e.fd))
  {
    hide Step, FilesOk, CallOf, OwnResponse, Configured, SendablePaths, Wire.Sendable, Wire.AllAnswer, InStep, Told;
    var c, w := CallOf(e), e.fd;
    var r := Step(s, c);
    KindOfEvent(s, e);
    WaitsOnce(s.files, w);
    StepConserves(s, c, w);
    NoticesOfStep(r, w);
    if IsAnswered(e, r) {
      OwnResponseFits(s, e);
      AsksAndGets(k, e.m, OwnResponse(e, r));
    } else if !e.Leaves? && r.reply.Waiting? {
      AsksAndWaits(k, e.m);
    }
    if e.Leaves? {
      NothingYet();
    } else {
      var own := if IsAnswered(e, r) then [OwnResponse(e, r)] else [];
      assert NoticesTo(Told(r), w) == [] && k.answers + own + [] == k.answers + own;
      assert k.answers + [] == k.answers && k.asked + [] == k.asked;
    }
  }

  lemma NothingYet()
    ensures InStep(Connection([], []), 0)
  {
  }

  /** As many notices as waits that are over keep a connection in step. */
  lemma GetsNotices(k: Connection, notices: seq<Wire.Response>, before: nat, after: nat)
    requires InStep(k, before) && before <= 1 && before == after + |notices|
    requires forall i :: 0 <= i < |notices| ==>
      notices[i] == Wire.Accepted || notices[i] == Wire.Refused(Wire.FILE_NOT_FOUND)
    ensures InStep(Connection(k.asked, k.answers + notices), after)
  {
    hide InStep;
    if |notices| == 1 {
      GetsAtLast(k, notices[0]);
      assert notices == [notices[0]];
    } else {
      assert k.answers + notices == k.answers;
    }
  }

  /** What a client is sent because of somebody else's request. */
  lemma OthersTurn(s: Store, e: Event, k: Connection, w: Fd)
    requires Served(s) && EventOk(e) && Admissible(s, CallOf(e)) && e.fd != w
    requires InStep(k, WaiterLaws.Waiting(s.files, w))
    ensures InStep(Extended(k, e, Step(s, CallOf(e)), w), WaiterLaws.Waiting(Step(s, CallOf(e)).store.files, w))
  {
    hide Step, FilesOk, CallOf, OwnResponse, Configured, SendablePaths, Wire.Sendable, Wire.AllAnswer, InStep, Told;
    hide Waits, NoticesTo, WaiterLaws.Waiting;
    var c := CallOf(e);
    KindOfEvent(s, e);
    StepConserves(s, c, w);
    NoticesOfStep(Step(s, c), w);
    WaitsOnce(s.files, w);
    GetsNotices(k, NoticesTo(Told(Step(s, c)), w), WaiterLaws.Waiting(s.files, w),
                WaiterLaws.Waiting(Step(s, c).store.files, w));
  }

  // ---------------------------------------------------------------- what a waiting client waits for

  /** `p` is a stored file, and `w` waits for it. */
  ghost predicate WaitsFor(files: seq<File>, p: Path, w: Fd) {
    View(files, p).Some? && w in View(files, p).value.queue
  }

  /** A client that waits has asked for the lock it waits for, and for nothing since. */
  ghost predicate WaitsForLast(k: Connection, files: seq<File>, w: Fd) {
    Waits(files, w) ==>
      k.asked != [] && k.asked[|k.asked| - 1].LockFile? && WaitsFor(files, k.asked[|k.asked| - 1].path, w)
  }

  lemma ArrivalWaits(s: Store, path: Path, fd: Fd, now: int)
    requires Lock(s, path, fd, now).reply.Waiting?
    ensures WaitsFor(Lock(s, path, fd, now).store.files, path, fd)
  {
    var i := IndexOf(s.files, path);
    ViewOfUpdate(s.files, i, Lock(s, path, fd, now).store.files[i], path);
  }

  lemma StepOfLock(s: Store, c: Call)
    requires c.req.ReqLock?
    ensures Step(s, c) == Lock(s, c.req.path, c.fd, c.now)
  {
  }

  lemma OwnTurnWaitsForLast(s: Store, e: Event, k: Connection)
    requires Inv(s) && EventOk(e) && Admissible(s, CallOf(e))
    ensures WaitsForLast(Extended(k, e, Step(s, CallOf(e)), e.fd), Step(s, CallOf(e)).store.files, e.fd)
  {
    hide Step, FilesOk, OwnResponse, Told, WaitsFor, Wire.SendablePath, Waits, Lock;
    var c, w := CallOf(e), e.fd;
    KindOfEvent(s, e);
    WaitsOnce(s.files, w);
    StepConserves(s, c, w);
    StepKeepsInv(s, c);
    WaitsOnce(Step(s, c).store.files, w);
    if Step(s, c).reply.Waiting? {
      StepOfLock(s, c);
      ArrivalWaits(s, c.req.path, c.fd, c.now);
    }
  }

  /** A client that waits is sent nothing, or that it has the lock it asked for, or that the file is gone, as it is. */
  lemma WaiterIsToldTheTruth(s: Store, c: Call, p: Path, w: Fd)
    requires Inv(s) && Admissible(s, c) && WaitsFor(s.files, p, w)
    ensures var sent := NoticesTo(Told(Step(s, c)), w);
      || (StillWaits(s, c, p, w) && sent == [])
      || (HasTheLock(s, c, p, w) && sent == [Wire.Accepted])
      || (FileIsGone(s, c, p, w) && sent == [Wire.Refused(Wire.FILE_NOT_FOUND)])
  {
    hide Step, Inv, View, Paths, Told;
    BlockedClientIsAnsweredOnce(s, c, p, w);
    NoticesOfStep(Step(s, c), w);
  }

  lemma OthersTurnWaitsForLast(s: Store, e: Event, k: Connection, w: Fd)
    requires Inv(s) && EventOk(e) && Admissible(s, CallOf(e)) && e.fd != w && WaitsForLast(k, s.files, w)
    ensures WaitsForLast(Extended(k, e, Step(s, CallOf(e)), w), Step(s, CallOf(e)).store.files, w)
  {
    hide Step, FilesOk, CallOf, OwnResponse, Told, Waits, Paths;
    var c := CallOf(e);
    KindOfEvent(s, e);
    StepConserves(s, c, w);
    StepKeepsInv(s, c);
    WaitsOnce(s.files, w);
    WaitsOnce(Step(s, c).store.files, w);
    if Waits(s.files, w) {
      BlockedClientIsAnsweredOnce(s, c, k.asked[|k.asked| - 1].path, w);
    }
  }

  // ---------------------------------------------------------------- over every run

  lemma PrefixOfEvents(events: seq<Event>)
    requires EventsOk(events) && events != []
    ensures EventsOk(events[..|events| - 1]) && EventOk(events[|events| - 1])
    ensures CallsOf(events)[..|events| - 1] == CallsOf(events[..|events| - 1])
    ensures CallsOf(events)[|events| - 1] == CallOf(events[|events| - 1])
  {
  }

  lemma NamesFromClients(events: seq<Event>)
    requires EventsOk(events)
    ensures FromClients(CallsOf(events))
  {
    forall k | 0 <= k < |events| && CallsOf(events)[k].req.ReqOpen?
      ensures Wire.SendablePath(CallsOf(events)[k].req.path)
    {
      assert EventOk(events[k]);
    }
  }

  /** Over every run of the storage, every connection is in step. */
  lemma {:induction false} ConnectionsStayInStep(s: Store, events: seq<Event>, w: Fd)
    requires Served(s) && s.files == [] && EventsOk(events) && Proper(s, CallsOf(events))
    ensures InStep(ConnectionAfter(s, events, w), WaiterLaws.Waiting(After(s, CallsOf(events)).files, w))
    ensures WaitsForLast(ConnectionAfter(s, events, w), After(s, CallsOf(events)).files, w)
    decreases |events|
  {
    hide Step, Inv, InStep, CallOf, Extended, Configured, SendablePaths, EventOk, WaitsFor;
    if events == [] {
      NothingYet();
    } else {
      var n := |events| - 1;
      var before := After(s, CallsOf(events[..n]));
      PrefixOfEvents(events);
      ProperPrefix(s, CallsOf(events), n);
      ConnectionsStayInStep(s, events[..n], w);
      NamesFromClients(events[..n]);
      RunIsServed(s, CallsOf(events[..n]));
      assert Admissible(before, CallOf(events[n]));
      if events[n].fd == w {
        OwnTurn(before, events[n], ConnectionAfter(s, events[..n], w));
        OwnTurnWaitsForLast(before, events[n], ConnectionAfter(s, events[..n], w));
      } else {
        OthersTurnWaitsForLast(before, events[n], ConnectionAfter(s, events[..n], w), w);
        OthersTurn(before, events[n], ConnectionAfter(s, events[..n], w), w);
      }
    }
  }

  /**
    Over every run of the storage, and for every client: the server reads from the client's stream exactly the
    requests that it was sent, and the client, reading each response against the request it belongs to, reads exactly
    the responses that it was sent, whether they came at once, after the body of a first write, or from the worker of
    another client once a lock was given up or its file destroyed. All requests are answered, but for the last one if
    the client waits for a lock.
  */
  lemma SessionsStayInStep(s: Store, events: seq<Event>, w: Fd, more: seq<Byte>, later: seq<Byte>)
    requires Served(s) && s.files == [] && EventsOk(events) && Proper(s, CallsOf(events))
    ensures var k, n := ConnectionAfter(s, events, w), WaiterLaws.Waiting(After(s, CallsOf(events)).files, w);
      && InStep(k, n) && WaitsForLast(k, After(s, CallsOf(events)).files, w)
      && Wire.TakeRequests(Wire.AllPrinted(k.asked) + more, |k.asked|) == Some((Wire.AllUnderstood(k.asked), more))
      && Wire.TakeResponses(k.asked[..|k.answers|], Wire.AllSent(k.answers) + later) == Some((k.answers, later))
  {
    hide After, ConnectionAfter, Proper, Served, WaitsForLast, Wire.TakeRequests, Wire.TakeResponses, Wire.AllAnswer;
    ConnectionsStayInStep(s, events, w);
    var k := ConnectionAfter(s, events, w);
    Wire.ServerStaysInStep(k.asked, more);
    Wire.ClientStaysInStep(k.asked[..|k.answers|], k.answers, later);
  }
}