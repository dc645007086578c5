/** The client's half of the protocol in src/clientApi.c: sending a request and reading its response. */
module ClientApi {
  import opened Prelude
  import opened Wire
  import opened Sockets

  /** `files` have been read of the listing that `whole` starts with, and `stream` is left. */
  predicate HasRead(files: FileList, stream: seq<Byte>, whole: seq<Byte>) {
    && TakeFiles(stream).Some?
    && TakeFiles(whole) == Some((files + TakeFiles(stream).value.0, TakeFiles(stream).value.1))
  }

  lemma ReadToTheEnd(files: FileList, stream: seq<Byte>, whole: seq<Byte>)
    requires HasRead(files, stream, whole)
    ensures TakeSegment(stream).Some?
    ensures TakeSegment(stream).value.0 == [] ==> TakeFiles(whole) == Some((files, TakeSegment(stream).value.1))
  {
    assert files + [] == files;
  }

  lemma ReadOneMore(files: FileList, stream: seq<Byte>, whole: seq<Byte>)
    requires HasRead(files, stream, whole) && TakeSegment(stream).Some? && TakeSegment(stream).value.0 != []
    ensures TakeSegment(TakeSegment(stream).value.1).Some?
    ensures var (path, rest) := TakeSegment(stream).value;
      var (content, rest') := TakeSegment(rest).value;
      HasRead(files + [(path, content)], rest', whole)
  {
    hide TakeSegment;
    var (path, rest) := TakeSegment(stream).value;
    var (content, rest') := TakeSegment(rest).value;
    ConcatAssociates(files, [(path, content)], TakeFiles(rest').value.0);
  }

  lemma NothingRead(stream: seq<Byte>)
    requires TakeFiles(stream).Some?
    ensures HasRead([], stream, stream)
  {
    assert [] + TakeFiles(stream).value.0 == TakeFiles(stream).value.0;
  }

  /** `storeFiles`: reads files until a path length of zero, and counts them. */
  method StoreFiles(sock: Socket) returns (count: nat, files: FileList)
    requires TakeFiles(sock.incoming).Some?
    modifies sock`incoming
    ensures TakeFiles(old(sock.incoming)) == Some((files, sock.incoming)) && count == |files|
  {
    hide TakeSegment, TakeFiles, HasRead;
    count, files := 0, [];
    NothingRead(sock.incoming);
    while true
      invariant HasRead(files, sock.incoming, old(sock.incoming)) && count == |files|
      decreases |sock.incoming|
    {
      ReadToTheEnd(files, sock.incoming, old(sock.incoming));
      ghost var stream := sock.incoming;
      var path := sock.ReadSegment();
      if path == [] {
        break;
      }
      ReadOneMore(files, stream, old(sock.incoming));
      var content := sock.ReadSegment();
      count, files := count + 1, files + [(path, content)];
    }
  }

  // ---------------------------------------------------------------- building and sending a request

  const REQ_CODE_LEN: nat := 1
  const OPEN_FLAG_LEN: nat := 1

  /** How many characters of a text fit before the NUL of a buffer said to have `size` bytes. */
  function Fitting(text: seq<Byte>, size: nat): (n: nat)
    requires size > 0
    ensures n <= |text| && n < size
  {
    if |text| < size then |text| else size - 1
  }

  /** `snprintf` of a text: it is cut off at `size`, which may be more than there is if the text is short. */
  method Snprintf(req: array<Byte>, size: nat, text: seq<Byte>)
    requires size > 0 && Fitting(text, size) < req.Length
    modifies req
    ensures req[..Fitting(text, size)] == text[..Fitting(text, size)] && req[Fitting(text, size)] == 0
  {
    var n := Fitting(text, size);
    CopyInto(req, 0, text[..n]);
    req[n] := 0;
  }

  /** `strlen` */
  method Strlen(req: array<Byte>, ghost end: nat) returns (n: nat)
    requires end < req.Length && req[end] == 0 && forall k :: 0 <= k < end ==> req[k] != 0
    ensures n == end
  {
    n := 0;
    while req[n] != 0
      invariant n <= end
      decreases end - n
    {
      n := n + 1;
    }
  }

  /** `%d%010ld%s`: the code of the request and its path, with the length in front. */
  function PathText(code: nat, path: seq<Byte>): (text: seq<Byte>)
    requires 1 <= code <= 9
    ensures |text| == REQ_CODE_LEN + METADATA_SIZE + |path|
  {
    [DigitOf(code)] + Padded(|path|, METADATA_SIZE) + path
  }

  lemma NoZeroInText(code: nat, path: seq<Byte>, size: nat)
    requires 1 <= code <= 9 && 0 !in path
    ensures 0 !in PathText(code, path) + Padded(size, METADATA_SIZE)
  {
  }

  lemma NoZeroBefore(buf: seq<Byte>, text: seq<Byte>)
    requires |text| <= |buf| && buf[..|text|] == text && 0 !in text
    ensures forall k :: 0 <= k < |text| ==> buf[k] != 0
  {
    assert forall k :: 0 <= k < |text| ==> buf[k] == text[k];
  }

  /** `readFile`, `lockFile`, `unlockFile`, `closeFile` and `removeFile`: the path is all there is to send. */
  method SendPath(sock: Socket, code: nat, pathname: seq<Byte>)
    requires 1 <= code <= 9
    modifies sock`outgoing
    ensures sock.outgoing == old(sock.outgoing) + [DigitOf(code)] + Segment(pathname)
  {
    var reqLen := REQ_CODE_LEN + METADATA_SIZE + |pathname| + 1;
    var req := new Byte[reqLen](_ => 0);
    var text := PathText(code, pathname);
    Snprintf(req, reqLen + 1, text);
    sock.Writen(req[..reqLen - 1]);
    assert text[..|text|] == [DigitOf(code)] + Segment(pathname);
  }

  /** `openFile` */
  method SendOpen(sock: Socket, pathname: seq<Byte>, flags: nat)
    requires flags < 10
    modifies sock`outgoing
    ensures sock.outgoing == old(sock.outgoing) + [DigitOf(2)] + (Segment(pathname) + [DigitOf(flags)])
  {
    var reqLen := REQ_CODE_LEN + METADATA_SIZE + OPEN_FLAG_LEN + |pathname| + 1;
    var req := new Byte[reqLen](_ => 0);
    var text := PathText(2, pathname) + [DigitOf(flags)];
    Snprintf(req, reqLen, text);
    sock.Writen(req[..reqLen - 1]);
    assert text[..|text|] == [DigitOf(2)] + (Segment(pathname) + [DigitOf(flags)]);
  }

  /** `readNFiles`: the buffer on the stack has room for ten characters of the limit. */
  method SendLimit(sock: Socket, n: int)
    requires -0x8000_0000 <= n < 0x8000_0000
    modifies sock`outgoing
    ensures sock.outgoing == old(sock.outgoing) + [DigitOf(1)] + PrintLimit(n)[..METADATA_SIZE]
  {
    var req := new Byte[METADATA_SIZE + REQ_CODE_LEN + 1];
    var text := [DigitOf(1)] + PrintLimit(n);
    Snprintf(req, METADATA_SIZE + REQ_CODE_LEN + 1, text);
    sock.Writen(req[..METADATA_SIZE + REQ_CODE_LEN]);
    assert text[..METADATA_SIZE + REQ_CODE_LEN] == [DigitOf(1)] + PrintLimit(n)[..METADATA_SIZE];
  }

  /** `writeFile` and `appendToFile`: the content follows the text, where `strlen` finds its end. */
  method SendData(sock: Socket, code: nat, pathname: seq<Byte>, data: seq<Byte>)
    requires 1 <= code <= 9 && 0 !in pathname
    modifies sock`outgoing
    ensures sock.outgoing == old(sock.outgoing) + [DigitOf(code)] + (Segment(pathname) + Segment(data))
  {
    hide PathText, Segment;
    var reqLen := REQ_CODE_LEN + METADATA_SIZE + |pathname| + METADATA_SIZE + |data| + 1;
    var req := new Byte[reqLen](_ => 0);
    var text := PathText(code, pathname) + Padded(|data|, METADATA_SIZE);
    NoZeroInText(code, pathname, |data|);
    Snprintf(req, reqLen + 1, text);
    assert text[..|text|] == text;
    NoZeroBefore(req[..], text);
    var end := Strlen(req, |text|);
    CopyInto(req, end, data);
    sock.Writen(req[..reqLen - 1]);
    DataInParts(code, pathname, data);
  }

  lemma DataInParts(code: nat, path: seq<Byte>, data: seq<Byte>)
    requires 1 <= code <= 9
    ensures PathText(code, path) + Padded(|data|, METADATA_SIZE) + data
      == [DigitOf(code)] + (Segment(path) + Segment(data))
  {
    hide Padded;
    ConcatAssociates([DigitOf(code)], Padded(|path|, METADATA_SIZE), path);
    ConcatAssociates([DigitOf(code)] + Segment(path), Padded(|data|, METADATA_SIZE), data);
    ConcatAssociates([DigitOf(code)], Segment(path), Segment(data));
  }

  /** What the functions refuse to send: an empty path, or nothing to append. */
  predicate Invalid(m: Message) {
    !m.ReadNFiles? && (m.path == [] || (m.AppendToFile? && m.data == []))
  }

  /**
    The functions that build and send a request: nothing is sent if the arguments are invalid, and otherwise the
    buffer has room for the whole request, and exactly its bytes are sent.
  */
  method SendRequest(sock: Socket, m: Message) returns (ok: bool)
    requires Sendable(m) || Invalid(m)
    modifies sock`outgoing
    ensures ok == !Invalid(m)
    ensures ok ==> Sendable(m) && sock.outgoing == old(sock.outgoing) + Printed(m)
    ensures !ok ==> sock.outgoing == old(sock.outgoing)
  {
    hide Segment, PrintLimit;
    if Invalid(m) {
      return false;
    }
    match m {
      case ReadNFiles(n) => SendLimit(sock, n);
      case OpenFile(pathname, flags) => SendOpen(sock, pathname, flags);
      case WriteFile(pathname, data) => SendData(sock, RequestCode(m), pathname, data);
      case AppendToFile(pathname, data) => SendData(sock, RequestCode(m), pathname, data);
      case _ => SendPath(sock, RequestCode(m), m.path);
    }
    ConcatAssociates(old(sock.outgoing), [DigitOf(RequestCode(m))], Arguments(m));
    return true;
  }

  // ---------------------------------------------------------------- receiving a response

  /** `WAIT_FOR_RESPONSE`, and what the function that sent request `m` reads after an OK. */
  method ReceiveResponse(sock: Socket, m: Message) returns (r: Response)
    requires TakeResponse(m, sock.incoming).Some?
    modifies sock`incoming
    ensures TakeResponse(m, old(sock.incoming)) == Some((r, sock.incoming))
  {
    hide TakeSegment, TakeFiles;
    var code := sock.Readn(1);
    if code != [DigitOf(OK)] {
      return Refused((code[0] - ZERO) as nat);
    }
    if m.ReadFile? {
      var bytes := sock.ReadSegment();
      return WithContent(bytes);
    } else if m.ReadNFiles? || m.WriteFile? || m.AppendToFile? {
      var count, files := StoreFiles(sock);
      return WithFiles(files);
    }
    return Accepted;
  }
}
