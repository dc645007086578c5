/** Which answer each request gets, by what its file is to the client, and the bytes in which it is given. */
module Refusals {
  import opened Prelude
  import RunLength
  import opened StoreModel
  import opened StoreInvariant
  import opened HandlerLaws
  import opened StoreRefinement
  import opened StoreRuns
  import opened UseLaws
  import opened Worker
  import Wire

  /** Nobody else holds the file, and the client has it open. */
  predicate MayUse(e: Entry, fd: Fd) {
    (e.holder == 0 || e.holder == fd) && fd in e.opens
  }

  /** The response to `m` of client `fd`, if it gets one at once. */
  ghost function AnswerTo(s: Store, m: Wire.Message, fd: Fd, now: int): Wire.Response {
    ResponseTo(m, Handled(s, m, fd, now))
  }

  lemma OpenAnswer(s: Store, path: Path, flags: nat, fd: Fd, now: int)
    requires Named(s) && path != [] && fd > 0
    ensures var e, create, lock := View(s.files, path), flags % 2 == 1, flags / 2 % 2 == 1;
      AnswerTo(s, Wire.OpenFile(path, flags), fd, now) ==
        if e.None? && !create then Wire.Refused(Wire.FILE_NOT_FOUND)
        else if e.Some? && create then Wire.Refused(Wire.ALREADY_EXISTS)
        else if e.Some? && lock && e.value.holder != 0 then Wire.Refused(Wire.FORBIDDEN)
        else Wire.Accepted
  {
    assert flags / 1 == flags;
    OpenOutcome(s, path, IsSet(flags, O_CREATE), IsSet(flags, O_LOCK), fd, now);
  }

  lemma ReadAnswer(s: Store, path: Path, fd: Fd, now: int)
    requires path != [] && fd > 0
    ensures var e := View(s.files, path);
      AnswerTo(s, Wire.ReadFile(path), fd, now) ==
        if e.None? then Wire.Refused(Wire.FILE_NOT_FOUND)
        else if !MayUse(e.value, fd) then Wire.Refused(Wire.FORBIDDEN)
        else Wire.WithContent(e.value.bytes)
  {
  }

  /** What a write is answered by, if it is not a first write that is forbidden. */
  lemma AppendAnswer(s: Store, m: Wire.Message, fd: Fd, now: int)
    requires (m.AppendToFile? || m.WriteFile?) && m.path != [] && fd > 0
    ensures var e, r := View(s.files, m.path), ResponseTo(m, Write(s, m.path, m.data, fd, now));
      if e.None? then r == Wire.Refused(Wire.FILE_NOT_FOUND)
      else if !MayUse(e.value, fd) then r == Wire.Refused(Wire.FORBIDDEN)
      else if |RunLength.Encode(e.value.bytes + m.data)| > s.maxStorageSize then r == Wire.Refused(Wire.FILE_TOO_BIG)
      else r.WithFiles?
  {
    hide EvictUntilFits, Replace, RunLength.Encode;
  }

  /** A first write is forbidden to all but the client that may do it, also if there is no such file. */
  lemma FirstWriteAnswer(s: Store, path: Path, data: seq<Byte>, fd: Fd, now: int)
    requires path != [] && fd > 0
    ensures var e, m := View(s.files, path), Wire.WriteFile(path, data);
      AnswerTo(s, m, fd, now) ==
        if e.None? || e.value.first != fd then Wire.Refused(Wire.FORBIDDEN)
        else ResponseTo(m, Write(s, path, data, fd, now))
  {
    hide Write;
  }

  lemma LockAnswer(s: Store, path: Path, fd: Fd, now: int)
    requires path != [] && fd > 0
    ensures var e, m := View(s.files, path), Wire.LockFile(path);
      if e.None? then AnswerTo(s, m, fd, now) == Wire.Refused(Wire.FILE_NOT_FOUND)
      else if e.value.holder == 0 || e.value.holder == fd then
        AnswerTo(s, m, fd, now) == Wire.Accepted && !Handled(s, m, fd, now).reply.Waiting?
      else Handled(s, m, fd, now).reply.Waiting?
  {
  }

  lemma UnlockAnswer(s: Store, path: Path, fd: Fd, now: int)
    requires path != [] && fd > 0
    ensures var e := View(s.files, path);
      AnswerTo(s, Wire.UnlockFile(path), fd, now) ==
        if e.None? then Wire.Refused(Wire.FILE_NOT_FOUND)
        else if e.value.holder != fd then Wire.Refused(Wire.FORBIDDEN)
        else Wire.Accepted
  {
  }

  lemma CloseAnswer(s: Store, path: Path, fd: Fd, now: int)
    requires path != [] && fd > 0
    ensures AnswerTo(s, Wire.CloseFile(path), fd, now) ==
      if View(s.files, path).None? then Wire.Refused(Wire.FILE_NOT_FOUND) else Wire.Accepted
  {
  }

  lemma RemoveAnswer(s: Store, path: Path, fd: Fd, now: int)
    requires path != [] && fd > 0
    ensures var e := View(s.files, path);
      AnswerTo(s, Wire.RemoveFile(path), fd, now) ==
        if e.None? then Wire.Refused(Wire.FILE_NOT_FOUND)
        else if e.value.holder != fd then Wire.Refused(Wire.FORBIDDEN)
        else Wire.Accepted
  {
  }

  /** A request without a path is a bad one, but a first write without a path is just forbidden. */
  lemma NoPathAnswer(s: Store, m: Wire.Message, fd: Fd, now: int)
    requires !m.ReadNFiles? && m.path == []
    ensures AnswerTo(s, m, fd, now) == Wire.Refused(if m.WriteFile? then Wire.FORBIDDEN else Wire.BAD_REQUEST)
  {
  }

  // ---------------------------------------------------------------- by the history of the file

  /** The file exists, `fd` has opened it and not closed it again, and no lock keeps it out. */
  ghost predicate MayUseByHistory(s: Store, calls: seq<Call>, path: Path, fd: Fd) {
    var e := View(After(s, calls).files, path);
    e.Some? && (e.value.holder == 0 || e.value.holder == fd) && OpenCount(s, calls, path, fd) > 0
  }

  lemma MayUseIff(s: Store, calls: seq<Call>, path: Path, fd: Fd)
    requires Inv(s) && s.files == [] && Proper(s, calls)
    ensures var e := View(After(s, calls).files, path);
      MayUseByHistory(s, calls, path, fd) <==> e.Some? && MayUse(e.value, fd)
  {
    hide After, OpenCount, Inv;
    if View(After(s, calls).files, path).Some? {
      AccessibleIff(s, calls, path, fd);
    }
  }

  /**
    Over every run, a read is answered by all that has been written to the file since its creation if its client has
    opened the file, has not closed it again, and is not kept out by a lock; it is forbidden if the file exists
    otherwise.
  */
  lemma ReadAnswerByHistory(s: Store, calls: seq<Call>, path: Path, fd: Fd, now: int)
    requires Inv(s) && s.files == [] && Proper(s, calls) && path != [] && fd > 0
    ensures AnswerTo(After(s, calls), Wire.ReadFile(path), fd, now) ==
      if !Has(After(s, calls).files, path) then Wire.Refused(Wire.FILE_NOT_FOUND)
      else if !MayUseByHistory(s, calls, path, fd) then Wire.Refused(Wire.FORBIDDEN)
      else Wire.WithContent(BytesWritten(s, calls, path))
  {
    hide After, OpenCount, BytesWritten, Inv, AnswerTo, MayUseByHistory, MayUse, Proper;
    ReadAnswer(After(s, calls), path, fd, now);
    ContentIsWhatWasWritten(s, calls, path);
    MayUseIff(s, calls, path, fd);
  }

  /**
    Over every run, a first write is forbidden unless its client has created the file with its lock, nobody has used
    the file with success since, and the client has it open; then only the size of the code can be in its way.
  */
  lemma FirstWriteAnswerByHistory(s: Store, calls: seq<Call>, path: Path, data: seq<Byte>, fd: Fd, now: int)
    requires Inv(s) && s.files == [] && Proper(s, calls) && path != [] && fd > 0
    ensures var r := AnswerTo(After(s, calls), Wire.WriteFile(path, data), fd, now);
      if !MayWriteFirst(s, calls, path, fd) || !MayUseByHistory(s, calls, path, fd) then
        r == Wire.Refused(Wire.FORBIDDEN)
      else if |RunLength.Encode(BytesWritten(s, calls, path) + data)| > After(s, calls).maxStorageSize then
        r == Wire.Refused(Wire.FILE_TOO_BIG)
      else r.WithFiles?
  {
    hide After, OpenCount, BytesWritten, Inv, AnswerTo, MayUseByHistory, MayUse, MayWriteFirst, Proper, ResponseTo;
    hide RunLength.Encode, Write, TestFirstWrite;
    FirstWriteAnswer(After(s, calls), path, data, fd, now);
    AppendAnswer(After(s, calls), Wire.WriteFile(path, data), fd, now);
    ContentIsWhatWasWritten(s, calls, path);
    MayUseIff(s, calls, path, fd);
    FirstWriteIff(s, calls, path, fd);
    FirstInView(After(s, calls), path, fd);
  }

  // ---------------------------------------------------------------- as bytes

  /** The status codes, as the single digits that are sent. */
  lemma StatusBytes()
    ensures Wire.Sent(Wire.Accepted) == [49]
    ensures Wire.Sent(Wire.Refused(Wire.FILE_NOT_FOUND)) == [50] && Wire.Sent(Wire.Refused(Wire.FORBIDDEN)) == [51]
    ensures Wire.Sent(Wire.Refused(Wire.FILE_TOO_BIG)) == [52] && Wire.Sent(Wire.Refused(Wire.BAD_REQUEST)) == [54]
    ensures Wire.Sent(Wire.Refused(Wire.ALREADY_EXISTS)) == [55]
  {
  }
}
