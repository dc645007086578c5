/**
  The byte streams between src/clientApi.c and src/server.c: what each side prints and how the other side
  reads it back.
*/
module Wire {
  import opened Prelude

  // ---------------------------------------------------------------- numbers

  const METADATA_SIZE: nat := 10
  const ZERO: Byte := 48
  const MINUS: Byte := 45
  const PLUS: Byte := 43

  function Pow10(n: nat): (p: nat)
    ensures p > 0
  {
    if n == 0 then 1 else 10 * Pow10(n - 1)
  }

  function DigitOf(d: nat): Byte
    requires d < 10
  {
    ZERO + d as Byte
  }

  predicate IsDigit(b: Byte) {
    ZERO <= b < ZERO + 10
  }

  /** The last `width` decimal digits of `n`: what `%0<width>ld` prints when `n` fits. */
  function Padded(n: nat, width: nat): (s: seq<Byte>)
    ensures |s| == width && forall i :: 0 <= i < width ==> IsDigit(s[i])
  {
    if width == 0 then [] else Padded(n / 10, width - 1) + [DigitOf(n % 10)]
  }

  /** Each digit is the one of its power of ten, the highest first. */
  lemma {:induction false} PaddedIsDecimal(n: nat, width: nat, i: nat)
    requires i < width
    ensures Padded(n, width)[i] == DigitOf(Shifted(n, width - 1 - i) % 10)
    decreases width
  {
    hide DigitOf;
    if i < width - 1 {
      PaddedIsDecimal(n / 10, width - 1, i);
    }
  }

  /** What is left of `n` without its last `places` decimal digits. */
  function Shifted(n: nat, places: nat): nat {
    if places == 0 then n else Shifted(n / 10, places - 1)
  }

  /** How many digits `s` has from `i` on. */
  function DigitsFrom(s: seq<Byte>, i: nat): (n: nat)
    requires i <= |s|
    ensures i + n <= |s|
    decreases |s| - i
  {
    if i < |s| && IsDigit(s[i]) then 1 + DigitsFrom(s, i + 1) else 0
  }

  /** The number that a string of digits denotes. */
  function Value(s: seq<Byte>): nat {
    if s == [] then 0 else 10 * Value(s[..|s| - 1]) + if IsDigit(s[|s| - 1]) then (s[|s| - 1] - ZERO) as nat else 0
  }

  predicate IsSpace(b: Byte) {
    b == 32 || 9 <= b <= 13
  }

  function SpacesFrom(s: seq<Byte>, i: nat): (n: nat)
    requires i <= |s|
    ensures i + n <= |s|
    decreases |s| - i
  {
    if i < |s| && IsSpace(s[i]) then 1 + SpacesFrom(s, i + 1) else 0
  }

  /** `strtol` in base ten: the value, and how many bytes were used (none if there is no number). */
  function Strtol(s: seq<Byte>): (r: (int, nat))
    ensures r.1 <= |s|
  {
    var i := SpacesFrom(s, 0);
    var j := if i < |s| && (s[i] == MINUS || s[i] == PLUS) then i + 1 else i;
    var n := DigitsFrom(s, j);
    var value: int := Value(s[j..j + n]);
    if n == 0 then (0, 0) else (if j > i && s[i] == MINUS then -value else value, j + n)
  }

  function Atol(s: seq<Byte>): int {
    Strtol(s).0
  }

  /** A buffer read as a C string: what comes before its first zero byte. */
  function CString(s: seq<Byte>): (r: seq<Byte>)
    ensures |r| <= |s| && 0 !in r && (0 !in s ==> r == s)
  {
    if s == [] || s[0] == 0 then [] else [s[0]] + CString(s[1..])
  }

  /** `isNumber`: the value, if the whole string is a number. */
  function IsNumber(s: seq<Byte>): Option<int> {
    if s != [] && Strtol(s).1 == |s| then Some(Strtol(s).0) else None
  }

  lemma {:induction false} ValueOfPadded(n: nat, width: nat)
    requires n < Pow10(width)
    ensures Value(Padded(n, width)) == n
  {
    if width > 0 {
      ValueOfPadded(n / 10, width - 1);
      assert Padded(n, width)[..width - 1] == Padded(n / 10, width - 1);
    }
  }

  lemma {:induction false} DigitsOfAll(s: seq<Byte>, i: nat)
    requires i <= |s| && forall k :: i <= k < |s| ==> IsDigit(s[k])
    ensures DigitsFrom(s, i) == |s| - i
    decreases |s| - i
  {
    if i < |s| {
      DigitsOfAll(s, i + 1);
    }
  }

  /** A padded number is read back, by `atol` and by `isNumber`. */
  lemma PaddedIsRead(n: nat, width: nat)
    requires n < Pow10(width) && width > 0
    ensures Atol(Padded(n, width)) == n && IsNumber(Padded(n, width)) == Some(n)
  {
    var s := Padded(n, width);
    DigitsOfAll(s, 0);
    ValueOfPadded(n, width);
    assert s[0..0 + width] == s;
  }

  lemma TenDigits(n: nat)
    requires n < 10_000_000_000
    ensures Atol(Padded(n, METADATA_SIZE)) == n && IsNumber(Padded(n, METADATA_SIZE)) == Some(n)
  {
    assert Pow10(5) == 100_000;
    assert Pow10(10) == 10_000_000_000;
    PaddedIsRead(n, METADATA_SIZE);
  }

  // ---------------------------------------------------------------- the limit of a read-n request

  /** `%010d` of a 32-bit number: at least ten characters, eleven for -10^9 and below. */
  function PrintLimit(n: int): (s: seq<Byte>)
    requires -0x8000_0000 <= n < 0x8000_0000
    ensures METADATA_SIZE <= |s| <= METADATA_SIZE + 1 && 0 !in s
  {
    if n >= 0 then Padded(n, 10) else if n > -1_000_000_000 then [MINUS] + Padded(-n, 9) else [MINUS] + Padded(-n, 10)
  }

  /** What the server makes of a limit of which only ten characters are sent. */
  function ReceivedLimit(n: int): int {
    if n > -1_000_000_000 then n else -((-n) / 10)
  }

  lemma NegativeIsRead(m: nat, width: nat)
    requires m < Pow10(width) && width > 0
    ensures IsNumber([MINUS] + Padded(m, width)) == Some(0 - m as int)
  {
    var s := [MINUS] + Padded(m, width);
    assert SpacesFrom(s, 0) == 0;
    DigitsOfAll(s, 1);
    ValueOfPadded(m, width);
    assert s[1..1 + width] == Padded(m, width);
  }

  lemma LongLimitIsRead(n: int)
    requires -0x8000_0000 <= n <= -1_000_000_000
    ensures IsNumber(PrintLimit(n)[..METADATA_SIZE]) == Some(ReceivedLimit(n))
  {
    var m: nat := (-n) / 10;
    assert Pow10(9) == 1_000_000_000 by {
      assert Pow10(5) == 100_000;
    }
    NegativeIsRead(m, 9);
    assert Padded(-n, 10)[..9] == Padded(m, 9);
    assert PrintLimit(n)[..METADATA_SIZE] == [MINUS] + Padded(m, 9);
  }

  lemma ShortLimitIsRead(n: int)
    requires -1_000_000_000 < n < 0
    ensures IsNumber(PrintLimit(n)[..METADATA_SIZE]) == Some(n)
  {
    hide Padded, IsNumber;
    assert Pow10(9) == 1_000_000_000 by {
      assert Pow10(5) == 100_000;
    }
    NegativeIsRead(-n, 9);
    assert PrintLimit(n)[..METADATA_SIZE] == [MINUS] + Padded(-n, 9);
  }

  /** The limit arrives as it was unless it takes eleven characters; then its last digit is lost, not its sign. */
  lemma LimitIsRead(n: int)
    requires -0x8000_0000 <= n < 0x8000_0000
    ensures IsNumber(CString(PrintLimit(n)[..METADATA_SIZE])) == Some(ReceivedLimit(n))
    ensures ReceivedLimit(n) == n <==> n > -1_000_000_000
    ensures ReceivedLimit(n) <= 0 <==> n <= 0
  {
    if n >= 0 {
      TenDigits(n);
      assert PrintLimit(n)[..METADATA_SIZE] == Padded(n, 10);
    } else if n > -1_000_000_000 {
      ShortLimitIsRead(n);
    } else {
      LongLimitIsRead(n);
    }
  }

  // ---------------------------------------------------------------- segments and file lists

  const MAX_LENGTH: nat := 10_000_000_000

  /** A path as clients may send it: not empty, shorter than the buffer that holds it, without zero bytes. */
  predicate SendablePath(path: seq<Byte>) {
    0 < |path| < 1024 && 0 !in path
  }

  /** A payload with its length in front. */
  function Segment(payload: seq<Byte>): (s: seq<Byte>)
    ensures |s| == METADATA_SIZE + |payload|
  {
    Padded(|payload|, METADATA_SIZE) + payload
  }

  /** `getRequestPayloadSegment`: the payload and what comes after it. */
  function TakeSegment(stream: seq<Byte>): (r: Option<(seq<Byte>, seq<Byte>)>)
    ensures r.Some? ==> |r.value.1| < |stream|
  {
    if |stream| < METADATA_SIZE then None
    else
      var n := Atol(stream[..METADATA_SIZE]);
      var rest := stream[METADATA_SIZE..];
      if 0 <= n <= |rest| then Some((rest[..n], rest[n..])) else None
  }

  lemma SegmentIsTaken(payload: seq<Byte>, rest: seq<Byte>)
    requires |payload| < MAX_LENGTH
    ensures TakeSegment(Segment(payload) + rest) == Some((payload, rest))
  {
    var stream := Segment(payload) + rest;
    TenDigits(|payload|);
    assert stream[..METADATA_SIZE] == Padded(|payload|, METADATA_SIZE);
    assert stream[METADATA_SIZE..] == payload + rest;
  }

  type FileList = seq<(seq<Byte>, seq<Byte>)>

  /** One file of a listing: path and content, each with its length in front. */
  function Frame(file: (seq<Byte>, seq<Byte>)): seq<Byte> {
    Segment(file.0) + Segment(file.1)
  }

  function Frames(files: FileList): seq<Byte> {
    if files == [] then [] else Frame(files[0]) + Frames(files[1..])
  }

  /** A length of zero ends a listing. */
  function Terminator(): seq<Byte> {
    Padded(0, METADATA_SIZE)
  }

  function Listing(files: FileList): seq<Byte> {
    Frames(files) + Terminator()
  }

  predicate SendableFiles(files: FileList) {
    forall k :: 0 <= k < |files| ==> SendablePath(files[k].0) && |files[k].1| < MAX_LENGTH
  }

  /** `storeFiles`: the files up to the terminator, and what comes after it. */
  function TakeFiles(stream: seq<Byte>): (r: Option<(FileList, seq<Byte>)>)
    ensures r.Some? ==> |r.value.1| < |stream|
    decreases |stream|
  {
    match TakeSegment(stream)
    case None => None
    case Some((path, rest)) =>
      if path == [] then Some(([], rest))
      else
        match TakeSegment(rest)
        case None => None
        case Some((content, rest')) =>
          match TakeFiles(rest')
          case None => None
          case Some((files, rest'')) => Some(([(path, content)] + files, rest''))
  }

  lemma ListingSplits(file: (seq<Byte>, seq<Byte>), files: FileList, rest: seq<Byte>)
    ensures Listing([file] + files) + rest == Segment(file.0) + (Segment(file.1) + (Listing(files) + rest))
  {
    hide Segment, Terminator;
    assert ([file] + files)[1..] == files;
    assert Listing([file] + files) == (Segment(file.0) + Segment(file.1)) + (Frames(files) + Terminator());
  }

  lemma EmptyListing(rest: seq<Byte>)
    ensures Listing([]) + rest == Segment([]) + rest
  {
  }

  /** Every listing is parsed into exactly its files, and nothing after it is touched. */
  lemma {:induction false} ListingIsTaken(files: FileList, rest: seq<Byte>)
    requires SendableFiles(files)
    ensures TakeFiles(Listing(files) + rest) == Some((files, rest))
    decreases |files|
  {
    hide TakeSegment, Segment, Listing;
    if files == [] {
      EmptyListing(rest);
      SegmentIsTaken([], rest);
    } else {
      assert files == [files[0]] + files[1..];
      ListingIsTaken(files[1..], rest);
      ListingSplits(files[0], files[1..], rest);
      SegmentIsTaken(files[0].0, Segment(files[0].1) + (Listing(files[1..]) + rest));
      SegmentIsTaken(files[0].1, Listing(files[1..]) + rest);
    }
  }

  // ---------------------------------------------------------------- requests

  datatype Message =
    | ReadNFiles(limit: int)
    | OpenFile(path: seq<Byte>, flags: nat)
    | ReadFile(path: seq<Byte>)
    | WriteFile(path: seq<Byte>, data: seq<Byte>)
    | AppendToFile(path: seq<Byte>, data: seq<Byte>)
    | LockFile(path: seq<Byte>)
    | UnlockFile(path: seq<Byte>)
    | CloseFile(path: seq<Byte>)
    | RemoveFile(path: seq<Byte>)

  /** The request codes. */
  function RequestCode(m: Message): (c: nat)
    ensures 1 <= c <= 9
  {
    match m
    case ReadNFiles(_) => 1
    case OpenFile(_, _) => 2
    case ReadFile(_) => 3
    case WriteFile(_, _) => 4
    case AppendToFile(_, _) => 5
    case LockFile(_) => 6
    case UnlockFile(_) => 7
    case CloseFile(_) => 8
    case RemoveFile(_) => 9
  }

  /** What the client functions send at all. */
  predicate Sendable(m: Message) {
    match m
    case ReadNFiles(limit) => -0x8000_0000 <= limit < 0x8000_0000
    case OpenFile(path, flags) => SendablePath(path) && flags < 4
    case WriteFile(path, data) => SendablePath(path) && |data| < MAX_LENGTH
    case AppendToFile(path, data) => SendablePath(path) && 0 < |data| < MAX_LENGTH
    case _ => SendablePath(m.path)
  }

  /** What follows the request code. */
  function Arguments(m: Message): seq<Byte>
    requires Sendable(m)
  {
    match m
    case ReadNFiles(limit) => PrintLimit(limit)[..METADATA_SIZE]
    case OpenFile(path, flags) => Segment(path) + [DigitOf(flags)]
    case WriteFile(path, data) => Segment(path) + Segment(data)
    case AppendToFile(path, data) => Segment(path) + Segment(data)
    case _ => Segment(m.path)
  }

  /** The bytes of a request, as the functions of src/clientApi.c build them. */
  function Printed(m: Message): seq<Byte>
    requires Sendable(m)
  {
    [DigitOf(RequestCode(m))] + Arguments(m)
  }

  /** The request as the server understands it. */
  function Understood(m: Message): Message {
    if m.ReadNFiles? then ReadNFiles(ReceivedLimit(m.limit)) else m
  }

  /** What the server makes of a request: one it can serve, or one it answers with BAD_REQUEST. */
  datatype Demand =
    | Proper(m: Message)
    | BadFlags(path: seq<Byte>)
    | BadLimit
    | Unknown(path: seq<Byte>)

  /** `atol` of a single character. */
  function CodeOf(b: Byte): nat {
    if IsDigit(b) then (b - ZERO) as nat else 0
  }

  /** The limit of a read-n request and what comes after it. */
  function TakeLimit(stream: seq<Byte>): Option<(Demand, seq<Byte>)> {
    if |stream| < METADATA_SIZE then None
    else
      match IsNumber(CString(stream[..METADATA_SIZE]))
      case None => Some((BadLimit, stream[METADATA_SIZE..]))
      case Some(limit) => Some((Proper(ReadNFiles(limit)), stream[METADATA_SIZE..]))
  }

  /** The flag of an open request and what comes after it. */
  function TakeFlags(path: seq<Byte>, stream: seq<Byte>): Option<(Demand, seq<Byte>)> {
    if stream == [] then None
    else if IsDigit(stream[0]) then Some((Proper(OpenFile(path, (stream[0] - ZERO) as nat)), stream[1..]))
    else Some((BadFlags(path), stream[1..]))
  }

  /** What `_startWorker` reads after the request code; nothing only when bytes are missing. */
  function TakeArguments(code: nat, stream: seq<Byte>): Option<(Demand, seq<Byte>)> {
    if code == 1 then TakeLimit(stream)
    else
      match TakeSegment(stream)
      case None => None
      case Some((path, rest)) => TakeMore(code, CString(path), rest)
  }

  /** What `_startWorker` reads after the path. */
  function TakeMore(code: nat, path: seq<Byte>, rest: seq<Byte>): Option<(Demand, seq<Byte>)> {
    if code == 2 then TakeFlags(path, rest)
    else if code == 4 || code == 5 then
      match TakeSegment(rest)
      case None => None
      case Some((data, rest')) =>
        Some((Proper(if code == 4 then WriteFile(path, data) else AppendToFile(path, data)), rest'))
    else Some((OfPath(code, path), rest))
  }

  /** The requests that carry a path only. */
  function OfPath(code: nat, path: seq<Byte>): Demand {
    match code
    case 3 => Proper(ReadFile(path))
    case 6 => Proper(LockFile(path))
    case 7 => Proper(UnlockFile(path))
    case 8 => Proper(CloseFile(path))
    case 9 => Proper(RemoveFile(path))
    case _ => Unknown(path)
  }

  /** The next request of a stream and what comes after it. */
  function TakeRequest(stream: seq<Byte>): Option<(Demand, seq<Byte>)> {
    if stream == [] then None else TakeArguments(CodeOf(stream[0]), stream[1..])
  }

  lemma LimitIsTaken(m: Message, rest: seq<Byte>)
    requires Sendable(m) && m.ReadNFiles?
    ensures TakeArguments(1, Arguments(m) + rest) == Some((Proper(Understood(m)), rest))
  {
    hide IsNumber, PrintLimit, ReceivedLimit;
    LimitIsRead(m.limit);
    assert (Arguments(m) + rest)[..METADATA_SIZE] == Arguments(m) && (Arguments(m) + rest)[METADATA_SIZE..] == rest;
  }

  /** Ten bytes that do not start like a number are a bad limit. */
  lemma NoLimitIsTaken(buf: seq<Byte>, rest: seq<Byte>)
    requires |buf| == METADATA_SIZE
    requires !IsDigit(buf[0]) && !IsSpace(buf[0]) && buf[0] != MINUS && buf[0] != PLUS
    ensures TakeLimit(buf + rest) == Some((BadLimit, rest))
  {
    assert (buf + rest)[..METADATA_SIZE] == buf && (buf + rest)[METADATA_SIZE..] == rest;
    assert CString(buf) != [] ==> CString(buf)[0] == buf[0];
  }

  lemma FlagsAreTaken(m: Message, rest: seq<Byte>)
    requires Sendable(m) && m.OpenFile?
    ensures TakeArguments(2, Arguments(m) + rest) == Some((Proper(Understood(m)), rest))
  {
    hide TakeSegment, Segment;
    SegmentIsTaken(m.path, [DigitOf(m.flags)] + rest);
    assert Arguments(m) + rest == Segment(m.path) + ([DigitOf(m.flags)] + rest);
    assert ([DigitOf(m.flags)] + rest)[1..] == rest;
  }

  lemma DataAreTaken(m: Message, rest: seq<Byte>)
    requires Sendable(m) && (m.WriteFile? || m.AppendToFile?)
    ensures TakeArguments(RequestCode(m), Arguments(m) + rest) == Some((Proper(Understood(m)), rest))
  {
    hide TakeSegment, Segment;
    SegmentIsTaken(m.path, Segment(m.data) + rest);
    SegmentIsTaken(m.data, rest);
    assert Arguments(m) + rest == Segment(m.path) + (Segment(m.data) + rest);
  }

  lemma PathIsTaken(m: Message, rest: seq<Byte>)
    requires Sendable(m) && !m.ReadNFiles? && !m.OpenFile? && !m.WriteFile? && !m.AppendToFile?
    ensures TakeArguments(RequestCode(m), Arguments(m) + rest) == Some((Proper(Understood(m)), rest))
  {
    hide TakeSegment, Segment;
    SegmentIsTaken(m.path, rest);
  }

  /** The server reads every request back and consumes exactly its bytes. */
  lemma RequestIsTaken(m: Message, rest: seq<Byte>)
    requires Sendable(m)
    ensures TakeRequest(Printed(m) + rest) == Some((Proper(Understood(m)), rest))
  {
    hide Arguments, TakeArguments;
    match m {
      case ReadNFiles(_) => LimitIsTaken(m, rest);
      case OpenFile(_, _) => FlagsAreTaken(m, rest);
      case WriteFile(_, _) => DataAreTaken(m, rest);
      case AppendToFile(_, _) => DataAreTaken(m, rest);
      case _ => PathIsTaken(m, rest);
    }
    assert (Printed(m) + rest)[1..] == Arguments(m) + rest;
  }

  /** What each request starts with: its code as a digit, and the length of its path in ten digits before the path. */
  lemma RequestBytes(m: Message)
    requires Sendable(m)
    ensures Printed(m)[0] == match m
      case ReadNFiles(_) => 49
      case OpenFile(_, _) => 50
      case ReadFile(_) => 51
      case WriteFile(_, _) => 52
      case AppendToFile(_, _) => 53
      case LockFile(_) => 54
      case UnlockFile(_) => 55
      case CloseFile(_) => 56
      case RemoveFile(_) => 57
    ensures !m.ReadNFiles? ==> Padded(|m.path|, 10) + m.path <= Printed(m)[1..]
  {
    hide Padded, PrintLimit;
    assert Printed(m)[1..] == Arguments(m);
  }

  // ---------------------------------------------------------------- responses

  const OK: nat := 1
  const FILE_NOT_FOUND: nat := 2
  const FORBIDDEN: nat := 3
  const FILE_TOO_BIG: nat := 4
  const BAD_REQUEST: nat := 6
  const ALREADY_EXISTS: nat := 7

  datatype Response =
    | Refused(code: nat)
    | Accepted
    | WithContent(bytes: seq<Byte>)
    | WithFiles(files: FileList)

  /** The response is one that the request can get: a refusal, or what its success carries. */
  predicate Answers(m: Message, r: Response) {
    match r
    case Refused(code) => OK < code < 8
    case Accepted => m.OpenFile? || m.LockFile? || m.UnlockFile? || m.CloseFile? || m.RemoveFile?
    case WithContent(bytes) => m.ReadFile? && |bytes| < MAX_LENGTH
    case WithFiles(files) => (m.ReadNFiles? || m.WriteFile? || m.AppendToFile?) && SendableFiles(files)
  }

  function StatusOf(r: Response): nat {
    if r.Refused? then r.code else OK
  }

  /** What follows the status code. */
  function Payload(r: Response): seq<Byte> {
    match r
    case Refused(_) => []
    case Accepted => []
    case WithContent(bytes) => Segment(bytes)
    case WithFiles(files) => Listing(files)
  }

  /** The bytes of a response. */
  function Sent(r: Response): seq<Byte>
    requires StatusOf(r) < 8
  {
    [DigitOf(StatusOf(r))] + Payload(r)
  }

  /** How the client reads what follows an OK to its request `m`. */
  function TakePayload(m: Message, stream: seq<Byte>): Option<(Response, seq<Byte>)> {
    if m.ReadFile? then
      match TakeSegment(stream)
      case None => None
      case Some((bytes, rest)) => Some((WithContent(bytes), rest))
    else if m.ReadNFiles? || m.WriteFile? || m.AppendToFile? then
      match TakeFiles(stream)
      case None => None
      case Some((files, rest)) => Some((WithFiles(files), rest))
    else Some((Accepted, stream))
  }

  /** How the client reads the response to its request `m`. */
  function TakeResponse(m: Message, stream: seq<Byte>): Option<(Response, seq<Byte>)> {
    if stream == [] || !IsDigit(stream[0]) then None
    else
      var code := (stream[0] - ZERO) as nat;
      if code == OK then TakePayload(m, stream[1..]) else Some((Refused(code), stream[1..]))
  }

  lemma PayloadIsTaken(m: Message, r: Response, rest: seq<Byte>)
    requires Answers(m, r) && !r.Refused?
    ensures TakePayload(m, Payload(r) + rest) == Some((r, rest))
  {
    hide TakeSegment, Segment, TakeFiles, Listing;
    match r {
      case Accepted => assert Payload(r) + rest == rest;
      case WithContent(bytes) => SegmentIsTaken(bytes, rest);
      case WithFiles(files) => ListingIsTaken(files, rest);
    }
  }

  /** The client reads every response back against its own request, and consumes exactly its bytes. */
  lemma ResponseIsTaken(m: Message, r: Response, rest: seq<Byte>)
    requires Answers(m, r)
    ensures TakeResponse(m, Sent(r) + rest) == Some((r, rest))
  {
    hide TakePayload, Payload;
    var stream := Sent(r) + rest;
    assert stream[1..] == Payload(r) + rest;
    if r.Refused? {
      assert Payload(r) == [] by {
        NoPayload(r);
      }
      assert [] + rest == rest;
    } else {
      PayloadIsTaken(m, r, rest);
    }
  }

  lemma NoPayload(r: Response)
    requires r.Refused?
    ensures Payload(r) == []
  {
  }

  // ---------------------------------------------------------------- sessions

  function AllPrinted(ms: seq<Message>): seq<Byte>
    requires forall k :: 0 <= k < |ms| ==> Sendable(ms[k])
  {
    if ms == [] then [] else Printed(ms[0]) + AllPrinted(ms[1..])
  }

  function AllUnderstood(ms: seq<Message>): seq<Demand> {
    if ms == [] then [] else [Proper(Understood(ms[0]))] + AllUnderstood(ms[1..])
  }

  /** The requests a worker reads one after the other from one connection. */
  function TakeRequests(stream: seq<Byte>, n: nat): Option<(seq<Demand>, seq<Byte>)> {
    if n == 0 then Some(([], stream))
    else
      match TakeRequest(stream)
      case None => None
      case Some((m, rest)) =>
        match TakeRequests(rest, n - 1)
        case None => None
        case Some((ms, rest')) => Some(([m] + ms, rest'))
  }

  /** One fitting response for each request. */
  ghost predicate AllAnswer(ms: seq<Message>, rs: seq<Response>): (b: bool)
    ensures b ==> |ms| == |rs| && forall k :: 0 <= k < |rs| ==> StatusOf(rs[k]) < 8
  {
    |ms| == |rs| && forall k {:trigger Answers(ms[k], rs[k])} {:trigger StatusOf(rs[k])} :: 0 <= k < |ms| ==>
      Answers(ms[k], rs[k])
  }

  function AllSent(rs: seq<Response>): seq<Byte>
    requires forall k :: 0 <= k < |rs| ==> StatusOf(rs[k]) < 8
  {
    if rs == [] then [] else Sent(rs[0]) + AllSent(rs[1..])
  }

  function TakeResponses(ms: seq<Message>, stream: seq<Byte>): Option<(seq<Response>, seq<Byte>)> {
    if ms == [] then Some(([], stream))
    else
      match TakeResponse(ms[0], stream)
      case None => None
      case Some((r, rest)) =>
        match TakeResponses(ms[1..], rest)
        case None => None
        case Some((rs, rest')) => Some(([r] + rs, rest'))
  }

  /** The server stays in step with any sequence of requests. */
  lemma {:induction false} ServerStaysInStep(ms: seq<Message>, rest: seq<Byte>)
    requires forall k :: 0 <= k < |ms| ==> Sendable(ms[k])
    ensures TakeRequests(AllPrinted(ms) + rest, |ms|) == Some((AllUnderstood(ms), rest))
    decreases |ms|
  {
    hide TakeRequest, Printed, Understood;
    if ms == [] {
      assert AllPrinted(ms) + rest == rest;
    } else {
      RequestIsTaken(ms[0], AllPrinted(ms[1..]) + rest);
      ServerStaysInStep(ms[1..], rest);
      assert AllPrinted(ms) + rest == Printed(ms[0]) + (AllPrinted(ms[1..]) + rest);
    }
  }

  /** The client stays in step: each response is decoded against its own request, and each has one status code. */
  lemma {:induction false} ClientStaysInStep(ms: seq<Message>, rs: seq<Response>, rest: seq<Byte>)
    requires AllAnswer(ms, rs)
    ensures TakeResponses(ms, AllSent(rs) + rest) == Some((rs, rest))
    decreases |ms|
  {
    hide TakeResponse, Sent;
    if ms == [] {
      assert AllSent(rs) + rest == rest;
    } else {
      assert Answers(ms[0], rs[0]) && AllAnswer(ms[1..], rs[1..]);
      ResponseIsTaken(ms[0], rs[0], AllSent(rs[1..]) + rest);
      ClientStaysInStep(ms[1..], rs[1..], rest);
      assert AllSent(rs) + rest == Sent(rs[0]) + (AllSent(rs[1..]) + rest);
      assert rs == [rs[0]] + rs[1..];
    }
  }
}
