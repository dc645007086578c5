/**
  The run-length codec of src/rleCompression.c.

  A run of k equal bytes b is written as tokens of at most nine: a token for one byte is `b`, a token
  for 2 to 9 bytes is `b b digit`. Nothing marks the digit, so decoding is positional.
*/
module RunLength {
  import opened Prelude

  const ASCII_ZERO: Byte := 48
  const MAX_TOKEN: nat := 9

  /** End of the run of equal bytes that index `i` of `s` belongs to. */
  function RunEnd(s: seq<Byte>, i: nat): (n: nat)
    requires i < |s|
    ensures i < n <= |s|
    decreases |s| - i
  {
    if i + 1 < |s| && s[i + 1] == s[i] then RunEnd(s, i + 1) else i + 1
  }

  /** Length of the maximal run of equal bytes at the head of `s`. */
  function Run(s: seq<Byte>): (n: nat)
    ensures n <= |s| && (s != [] ==> 1 <= n)
  {
    if s == [] then 0 else RunEnd(s, 0)
  }

  lemma {:induction false} RunEndIsMaximal(s: seq<Byte>, i: nat)
    requires i < |s|
    ensures var n := RunEnd(s, i);
      (forall j :: i <= j < n ==> s[j] == s[i]) && (n < |s| ==> s[n] != s[i])
    decreases |s| - i
  {
    if i + 1 < |s| && s[i + 1] == s[i] {
      RunEndIsMaximal(s, i + 1);
    }
  }

  /** `Run(s)` is the only length that is both equal throughout and followed by a different byte. */
  lemma RunIsMaximal(s: seq<Byte>, n: nat)
    requires 1 <= n <= |s|
    ensures Run(s) == n <==> (forall i :: 0 <= i < n ==> s[i] == s[0]) && (n < |s| ==> s[n] != s[0])
  {
    RunEndIsMaximal(s, 0);
    if Run(s) < n {
      assert s[Run(s)] != s[0];
    }
  }

  /** How many bytes of `s` its first token stands for. */
  function TokenSpan(s: seq<Byte>): (k: nat)
    requires s != []
    ensures 1 <= k <= MAX_TOKEN && k <= Run(s)
  {
    if Run(s) > MAX_TOKEN then MAX_TOKEN else Run(s)
  }

  function Digit(k: nat): (d: Byte)
    requires k <= MAX_TOKEN
  {
    ASCII_ZERO + k as Byte
  }

  function Token(b: Byte, k: nat): (t: seq<Byte>)
    requires 1 <= k <= MAX_TOKEN
    ensures |t| == if k == 1 then 1 else 3
  {
    if k == 1 then [b] else [b, b, Digit(k)]
  }

  /** The encoding, token by token. */
  function Encode(s: seq<Byte>): (c: seq<Byte>)
    decreases |s|
  {
    if s == [] then [] else Token(s[0], TokenSpan(s)) + Encode(s[TokenSpan(s)..])
  }

  /** The decoding of a whole code, independent of the encoder: two equal bytes announce a count. */
  function Decode(c: seq<Byte>): seq<Byte>
    decreases |c|
  {
    if c == [] then []
    else if |c| >= 3 && c[0] == c[1] then
      Repeat(c[0], if c[2] > ASCII_ZERO then (c[2] - ASCII_ZERO) as nat else 1) + Decode(c[3..])
    else [c[0]] + Decode(c[1..])
  }

  /** After a token that stands for a single byte, the code goes on with a different byte (or ends). */
  lemma SingleTokenIsFollowedByAnother(s: seq<Byte>)
    requires s != [] && TokenSpan(s) == 1
    ensures var rest := Encode(s[1..]); rest != [] ==> rest[0] != s[0]
  {
    if |s| > 1 {
      assert Encode(s[1..])[0] == s[1];
    }
  }

  /** What one token at the head of a code looks like to a positional decoder. */
  lemma TokenAtHead(s: seq<Byte>)
    requires s != []
    ensures var c, k := Encode(s), TokenSpan(s);
      && c != [] && c[0] == s[0] && s[..k] == Repeat(s[0], k)
      && (k == 1 ==> c[1..] == Encode(s[1..]) && (|c| > 1 ==> c[1] != c[0]))
      && (|c| == 1 ==> s == [s[0]])
      && (k > 1 ==> |c| >= 3 && c[1] == c[0] && c[2] == Digit(k) && c[3..] == Encode(s[k..]))
  {
    var k := TokenSpan(s);
    RunIsMaximal(s, Run(s));
    if k == 1 {
      SingleTokenIsFollowedByAnother(s);
    }
  }

  /** Every byte string, whatever its digits, run lengths or trailing zeros, is recovered from its code. */
  lemma {:induction false} DecodeEncode(s: seq<Byte>)
    ensures Decode(Encode(s)) == s
    decreases |s|
  {
    if s != [] {
      var k := TokenSpan(s);
      TokenAtHead(s);
      DecodeEncode(s[k..]);
      assert s == s[..k] + s[k..];
    }
  }

  lemma EncodeIsInjective(s: seq<Byte>, t: seq<Byte>)
    requires Encode(s) == Encode(t)
    ensures s == t
  {
    DecodeEncode(s);
    DecodeEncode(t);
  }

  // ---------------------------------------------------------------- runs

  /** The code of one whole run: nines first, the remainder last. */
  function RunCode(b: Byte, k: nat): (c: seq<Byte>)
    requires 1 <= k
    ensures |c| == RunCost(k)
  {
    if k <= MAX_TOKEN then Token(b, k) else Token(b, MAX_TOKEN) + RunCode(b, k - MAX_TOKEN)
  }

  /** Code length of one run of `k` equal bytes. */
  function RunCost(k: nat): nat {
    if k == 0 then 0 else if k == 1 then 1 else if k <= MAX_TOKEN then 3 else 3 + RunCost(k - MAX_TOKEN)
  }

  lemma RunAfterDrop(s: seq<Byte>, k: nat)
    requires k < Run(s)
    ensures Run(s[k..]) == Run(s) - k && s[k] == s[0]
  {
    var t := s[k..];
    RunIsMaximal(s, Run(s));
    forall i | 0 <= i < Run(s) - k ensures t[i] == t[0] {
      assert t[i] == s[k + i];
    }
    RunIsMaximal(t, Run(s) - k);
  }

  /** The token-by-token code is the run-by-run code. */
  lemma {:induction false} EncodeByRuns(s: seq<Byte>)
    requires s != []
    ensures Encode(s) == RunCode(s[0], Run(s)) + Encode(s[Run(s)..])
    decreases |s|
  {
    if Run(s) > MAX_TOKEN {
      var t := s[MAX_TOKEN..];
      RunAfterDrop(s, MAX_TOKEN);
      EncodeByRuns(t);
      assert t[Run(t)..] == s[Run(s)..];
      ConcatAssociates(Token(s[0], MAX_TOKEN), RunCode(s[0], Run(t)), Encode(s[Run(s)..]));
    }
  }

  // ---------------------------------------------------------------- the format in plain numbers

  /**
    What the code of any bytes starts with, by the length of the first run of equal bytes: the byte alone, the byte
    twice and its count as a digit, or, for more than nine, the byte twice and a nine before the code of the rest.
  */
  lemma EncodeFormat(s: seq<Byte>)
    requires s != []
    ensures var n := Run(s);
      if n == 1 then Encode(s) == [s[0]] + Encode(s[1..])
      else if n <= 9 then Encode(s) == [s[0], s[0], 48 + n as Byte] + Encode(s[n..])
      else Encode(s) == [s[0], s[0], 57] + Encode(s[9..])
  {
    hide Encode, Run;
    EncodeByTokens(s);
  }

  lemma EncodeByTokens(s: seq<Byte>)
    requires s != []
    ensures Encode(s) == Token(s[0], TokenSpan(s)) + Encode(s[TokenSpan(s)..])
  {
  }

  lemma RunOfRepeat(b: Byte, n: nat)
    requires n > 0
    ensures Run(Repeat(b, n)) == n
  {
    RunIsMaximal(Repeat(b, n), n);
  }

  /** Two to nine equal bytes take three bytes of code: the byte twice and the count. */
  lemma RepeatedByteCode(b: Byte, n: nat)
    requires 2 <= n <= 9
    ensures Encode(Repeat(b, n)) == [b, b, 48 + n as Byte]
  {
    hide Encode, Run;
    RunOfRepeat(b, n);
    EncodeFormat(Repeat(b, n));
    assert Repeat(b, n)[n..] == [];
    NothingToEncode();
  }

  /** Any number of equal bytes takes three bytes of code for each nine, and one or three for what is left over. */
  lemma {:induction false} RepeatedByteSize(b: Byte, nines: nat, left: nat)
    requires left < 9
    ensures |Encode(Repeat(b, 9 * nines + left))| == 3 * nines + if left == 0 then 0 else if left == 1 then 1 else 3
    decreases nines
  {
    hide Encode, Run;
    var n := 9 * nines + left;
    var s := Repeat(b, n);
    if n == 0 {
      assert s == [];
      NothingToEncode();
    } else if n > 9 {
      RunOfRepeat(b, n);
      EncodeFormat(s);
      assert s[9..] == Repeat(b, 9 * (nines - 1) + left);
      RepeatedByteSize(b, nines - 1, left);
    } else if n >= 2 {
      RepeatedByteCode(b, n);
    } else if n == 1 {
      RunOfRepeat(b, 1);
      EncodeFormat(s);
      assert s[1..] == [];
      NothingToEncode();
    }
  }

  // ---------------------------------------------------------------- size laws

  /** An n-byte input takes c bytes with n <= 3c and 2c <= 3n: the 2n bytes allocated are enough. */
  lemma {:induction false} EncodedSize(s: seq<Byte>)
    ensures |s| <= 3 * |Encode(s)| && 2 * |Encode(s)| <= 3 * |s|
    decreases |s|
  {
    if s != [] {
      EncodedSize(s[TokenSpan(s)..]);
    }
  }

  lemma {:induction false} RunCostBounds(k: nat)
    ensures 2 * RunCost(k) <= 3 * k
    decreases k
  {
    if k > MAX_TOKEN {
      RunCostBounds(k - MAX_TOKEN);
    }
  }

  lemma {:induction false} RunCostGrows(k: nat, m: nat)
    requires k <= m
    ensures RunCost(k) <= RunCost(m)
    decreases m
  {
    if k > MAX_TOKEN {
      RunCostGrows(k - MAX_TOKEN, m - MAX_TOKEN);
    }
  }

  lemma {:induction false} RunCostOfJoin(k: nat, m: nat)
    ensures RunCost(k + m) <= RunCost(k) + RunCost(m) + 1
    decreases k + m
  {
    if k > MAX_TOKEN {
      RunCostOfJoin(k - MAX_TOKEN, m);
    } else if m > MAX_TOKEN {
      RunCostOfJoin(k, m - MAX_TOKEN);
    }
  }

  /** Code length summed over the runs. */
  function CodeSize(s: seq<Byte>): nat
    decreases |s|
  {
    if s == [] then 0 else RunCost(Run(s)) + CodeSize(s[Run(s)..])
  }

  lemma {:induction false} CodeSizeIsLength(s: seq<Byte>)
    ensures |Encode(s)| == CodeSize(s)
    decreases |s|
  {
    if s != [] {
      EncodeByRuns(s);
      CodeSizeIsLength(s[Run(s)..]);
    }
  }

  lemma RunOfAppend(a: seq<Byte>, b: seq<Byte>)
    requires a != [] && b != []
    ensures Run(a + b) == if Run(a) == |a| && b[0] == a[0] then |a| + Run(b) else Run(a)
  {
    var s := a + b;
    RunIsMaximal(a, Run(a));
    RunIsMaximal(b, Run(b));
    if Run(a) == |a| && b[0] == a[0] {
      forall i | 0 <= i < |a| + Run(b) ensures s[i] == s[0] {
        assert s[i] == if i < |a| then a[i] else b[i - |a|];
      }
      RunIsMaximal(s, |a| + Run(b));
    } else {
      RunIsMaximal(s, Run(a));
    }
  }

  lemma {:induction false} CodeSizeOfAppend(a: seq<Byte>, b: seq<Byte>)
    ensures CodeSize(a) <= CodeSize(a + b) <= CodeSize(a) + CodeSize(b) + 1
    decreases |a|
  {
    if a == [] {
      assert a + b == b;
    } else if b == [] {
      assert a + b == a;
    } else {
      RunOfAppend(a, b);
      if Run(a) == |a| && b[0] == a[0] {
        assert (a + b)[|a| + Run(b)..] == b[Run(b)..];
        RunCostGrows(|a|, |a| + Run(b));
        RunCostOfJoin(|a|, Run(b));
      } else {
        assert (a + b)[Run(a)..] == a[Run(a)..] + b;
        CodeSizeOfAppend(a[Run(a)..], b);
      }
    }
  }

  /** Appending never shrinks the code, and two codes joined cost at most one byte more than apart. */
  lemma EncodedSizeOfAppend(a: seq<Byte>, b: seq<Byte>)
    ensures |Encode(a)| <= |Encode(a + b)| <= |Encode(a)| + |Encode(b)| + 1
  {
    CodeSizeIsLength(a);
    CodeSizeIsLength(b);
    CodeSizeIsLength(a + b);
    CodeSizeOfAppend(a, b);
  }

  // ---------------------------------------------------------------- the in-place encoder

  /** The scan of `RLEcompress` for the end of the run that starts at `inIdx`. */
  method ScanRun(data: array<Byte>, inIdx: nat) returns (count: nat)
    requires inIdx < data.Length
    ensures count == Run(data[inIdx..])
  {
    var contIdx := inIdx;
    count := 1;
    while contIdx < data.Length - 1
      invariant contIdx == inIdx + count - 1 < data.Length
      invariant forall i :: inIdx <= i <= contIdx ==> data[i] == data[inIdx]
    {
      contIdx := contIdx + 1;
      if data[inIdx] != data[contIdx] {
        break;
      }
      count := count + 1;
    }
    RunIsMaximal(data[inIdx..], count);
  }

  lemma FirstTokenOfRun(b: Byte, k: nat)
    requires 1 <= k
    ensures k <= MAX_TOKEN ==> RunCode(b, k) == Token(b, k) && RunCost(k) == if k == 1 then 1 else 3
    ensures k > MAX_TOKEN ==>
      RunCode(b, k) == Token(b, MAX_TOKEN) + RunCode(b, k - MAX_TOKEN) && RunCost(k) == 3 + RunCost(k - MAX_TOKEN)
  {
  }

  /** The part of `RLEcompress` that writes one run: counts above nine are broken down into nines. */
  method WriteRun(ret: array<Byte>, start: nat, b: Byte, count: nat) returns (retIdx: nat)
    requires 1 <= count && start + RunCost(count) <= ret.Length
    modifies ret
    ensures retIdx == start + RunCost(count)
    ensures ret[..retIdx] == old(ret[..start]) + RunCode(b, count)
    ensures forall i :: retIdx <= i < ret.Length ==> ret[i] == old(ret[i])
  {
    hide RunCode, RunCost;
    retIdx := start;
    var tmpCount := count;
    ghost var code := ret[..start];
    while tmpCount > MAX_TOKEN
      invariant 1 <= tmpCount <= count && start <= retIdx <= ret.Length
      invariant retIdx + RunCost(tmpCount) == start + RunCost(count)
      invariant ret[..retIdx] + RunCode(b, tmpCount) == code + RunCode(b, count)
      invariant forall i :: retIdx <= i < ret.Length ==> ret[i] == old(ret[i])
    {
      ghost var before := ret[..retIdx];
      FirstTokenOfRun(b, tmpCount);
      tmpCount := tmpCount - 9;
      ret[retIdx] := b;
      ret[retIdx + 1] := b;
      ret[retIdx + 2] := Digit(9);
      retIdx := retIdx + 3;
      assert ret[..retIdx] == before + Token(b, MAX_TOKEN);
      ConcatAssociates(before, Token(b, MAX_TOKEN), RunCode(b, tmpCount));
    }
    ghost var before := ret[..retIdx];
    FirstTokenOfRun(b, tmpCount);
    ret[retIdx] := b;
    retIdx := retIdx + 1;
    if tmpCount > 1 {
      ret[retIdx] := b;
      ret[retIdx + 1] := Digit(tmpCount);
      retIdx := retIdx + 2;
    }
    assert ret[..retIdx] == before + Token(b, tmpCount);
  }

  /** `RLEcompress`: fills a zeroed buffer of twice the input size; the code takes its first `size` bytes. */
  method Compress(data: array<Byte>) returns (ret: array<Byte>, size: nat)
    ensures fresh(ret) && ret.Length == 2 * data.Length
    ensures size <= ret.Length && ret[..size] == Encode(data[..])
    ensures forall i :: size <= i < ret.Length ==> ret[i] == 0
    ensures data.Length > 0 ==> size < ret.Length
  {
    hide Encode, RunCode, RunCost, Run;
    ret := new Byte[2 * data.Length](_ => 0);
    var inIdx := 0;
    size := 0;
    while inIdx < data.Length
      invariant inIdx <= data.Length && 2 * size <= 3 * inIdx
      invariant ret[..size] + Encode(data[inIdx..]) == Encode(data[..])
      invariant forall i :: size <= i < ret.Length ==> ret[i] == 0
    {
      ghost var left, code := data[inIdx..], ret[..size];
      var count := ScanRun(data, inIdx);
      RunCostBounds(count);
      EncodeByRuns(left);
      size := WriteRun(ret, size, data[inIdx], count);
      inIdx := inIdx + count;
      assert left[count..] == data[inIdx..];
      ConcatAssociates(code, RunCode(left[0], count), Encode(data[inIdx..]));
    }
    assert data[inIdx..] == [];
    NothingToEncode();
  }

  lemma NothingToEncode()
    ensures Encode([]) == []
  {
  }

  // ---------------------------------------------------------------- the in-place decoder

  /** The `size_t` value of `c - '0'` for a signed `char`: negative differences wrap around. */
  function Occurrences(c: Byte): (n: nat) {
    var d := (if c < 128 then c as int else c as int - 256) - ASCII_ZERO as int;
    if d < 0 then 0x1_0000_0000_0000_0000 + d else d
  }

  /** The inner loop of `RLEdecompress`: repeats `b`, never past the size of the original. */
  method Fill(ret: array<Byte>, start: nat, b: Byte, occ: nat, uncompressedSize: nat) returns (retIdx: nat)
    requires start <= uncompressedSize <= ret.Length
    modifies ret
    ensures retIdx == if occ <= 1 then start else if start + occ - 1 <= uncompressedSize then start + occ - 1
                      else uncompressedSize
    ensures ret[..retIdx] == old(ret[..start]) + Repeat(b, retIdx - start)
    ensures forall i :: retIdx <= i < ret.Length ==> ret[i] == old(ret[i])
  {
    retIdx := start;
    var i := 1;
    while i < occ && retIdx < uncompressedSize
      invariant retIdx == start + i - 1 <= uncompressedSize && (occ >= 1 ==> i <= occ) && (occ == 0 ==> i == 1)
      invariant ret[..retIdx] == old(ret[..start]) + Repeat(b, retIdx - start)
      invariant forall i :: retIdx <= i < ret.Length ==> ret[i] == old(ret[i])
    {
      ret[retIdx] := b;
      retIdx := retIdx + 1;
      i := i + 1;
    }
  }

  /**
    One turn of the outer loop of `RLEdecompress`: copies one byte and, when the next byte equals it, reads a
    digit and fills. The byte after the code is read and must exist; the one after that may lie outside the
    buffer, and `beyond` stands for whatever is found there. `left` is what is still to be decoded.
  */
  method CopyToken(data: seq<Byte>, size: nat, ret: array<Byte>, uncompressedSize: nat, beyond: Byte,
                   inIdx: nat, retIdx: nat, ghost left: seq<Byte>)
    returns (inIdx': nat, retIdx': nat, ghost left': seq<Byte>)
    requires inIdx < size < |data| && left != []
    requires retIdx + |left| == uncompressedSize <= ret.Length
    requires data[inIdx..size] == Encode(left)
    modifies ret
    ensures inIdx < inIdx' && retIdx' == retIdx + TokenSpan(left) && left' == left[TokenSpan(left)..]
    ensures if inIdx' <= size then data[inIdx'..size] == Encode(left') else left' == []
    ensures ret[..retIdx'] == old(ret[..retIdx]) + left[..TokenSpan(left)]
    ensures forall i :: retIdx' <= i < ret.Length ==> ret[i] == old(ret[i])
  {
    TokenAtHead(left);
    ghost var code := data[inIdx..size];
    left' := left[TokenSpan(left)..];
    assert data[inIdx] == code[0];
    ret[retIdx] := data[inIdx];
    retIdx' := retIdx + 1;
    if data[inIdx] == data[inIdx + 1] {
      var digit := if inIdx + 2 < |data| then data[inIdx + 2] else beyond;
      assert inIdx + 1 < size ==>
        data[inIdx + 1] == code[1] && data[inIdx + 2] == code[2] && data[inIdx + 3..size] == code[3..];
      retIdx' := Fill(ret, retIdx', data[inIdx], Occurrences(digit), uncompressedSize);
      inIdx' := inIdx + 3;
    } else {
      assert inIdx + 1 < size ==> data[inIdx + 1] == code[1];
      assert data[inIdx + 1..size] == code[1..];
      inIdx' := inIdx + 1;
    }
  }

  /**
    `RLEdecompress`: the buffer `data` holds the code of `s` in its first `size` bytes and anything after it. The result
    is `s` followed by `extra` zero bytes.
  */
  method Decompress(data: seq<Byte>, size: nat, uncompressedSize: nat, extra: nat, beyond: Byte, ghost s: seq<Byte>)
    returns (ret: array<Byte>)
    requires size <= |data| && (size > 0 ==> size < |data|)
    requires data[..size] == Encode(s) && uncompressedSize == |s|
    ensures fresh(ret) && ret[..] == s + Repeat(0 as Byte, extra)
  {
    ret := new Byte[uncompressedSize + extra](_ => 0);
    var retIdx: nat, inIdx: nat := 0, 0;
    ghost var left := s;
    assert data[inIdx..size] == data[..size];
    while inIdx < size
      invariant retIdx + |left| == uncompressedSize
      invariant if inIdx <= size then data[inIdx..size] == Encode(left) else left == []
      invariant ret[..retIdx] + left == s
      invariant forall i :: retIdx <= i < ret.Length ==> ret[i] == 0
      decreases size - inIdx
    {
      assert left != [] by {
        EncodedSize(left);
      }
      SplitKeepsWhole(ret[..retIdx], left, TokenSpan(left));
      inIdx, retIdx, left := CopyToken(data, size, ret, uncompressedSize, beyond, inIdx, retIdx, left);
    }
    assert left == [] by {
      EncodedSize(left);
    }
    assert ret[..] == ret[..retIdx] + ret[retIdx..];
  }
}
