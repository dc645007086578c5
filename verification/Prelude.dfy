/** Shared vocabulary: bytes, optional values and the few sequence operations every part of the server uses. */
module Prelude {
  /** A C `char` seen as its unsigned value. */
  newtype Byte = b: int | 0 <= b < 256

  datatype Option<+T> = None | Some(value: T)

  function One(b: bool): nat {
    if b then 1 else 0
  }

  function Repeat<T>(x: T, n: nat): (r: seq<T>)
    ensures |r| == n && forall i :: 0 <= i < n ==> r[i] == x
  {
    seq(n, _ => x)
  }

  lemma ConcatAssociates<T>(a: seq<T>, b: seq<T>, c: seq<T>)
    ensures (a + b) + c == a + (b + c)
  {
  }

  lemma SplitKeepsWhole<T>(a: seq<T>, b: seq<T>, k: nat)
    requires k <= |b|
    ensures (a + b[..k]) + b[k..] == a + b
  {
    assert b == b[..k] + b[k..];
  }

  lemma {:induction false} SubsetSize<T>(a: set<T>, b: set<T>)
    requires a <= b
    ensures |a| <= |b|
    decreases |a|
  {
    if a != {} {
      var x :| x in a;
      SubsetSize(a - {x}, b - {x});
    }
  }

  /** `memcpy` */
  method CopyInto(ret: array<Byte>, at: nat, s: seq<Byte>)
    requires at + |s| <= ret.Length
    modifies ret
    ensures ret[..at + |s|] == old(ret[..at]) + s
  {
    forall k | 0 <= k < |s| {
      ret[at + k] := s[k];
    }
    assert ret[..at] == old(ret[..at]);
    assert ret[..at + |s|] == ret[..at] + ret[at..at + |s|];
  }
}
