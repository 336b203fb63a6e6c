/** UTF-8 as section 3 of RFC 3629 lays it out, and the byte offsets at which a
    string may be cut. */
module Utf8 {

  type Byte = b: int | 0 <= b < 256

  predicate IsContinuation(b: Byte) { 0x80 <= b < 0xC0 }

  function EncodeChar(c: char): (bs: seq<Byte>)
    ensures 1 <= |bs| <= 4
    ensures !IsContinuation(bs[0])
    ensures forall i | 1 <= i < |bs| :: IsContinuation(bs[i])
  {
    var v := c as int;
    if v < 0x80 then [v]
    else if v < 0x800 then [0xC0 + v / 64, 0x80 + v % 64]
    else if v < 0x10000 then [0xE0 + v / 4096, 0x80 + v / 64 % 64, 0x80 + v % 64]
    else [0xF0 + v / 262144, 0x80 + v / 4096 % 64, 0x80 + v / 64 % 64, 0x80 + v % 64]
  }

  function Encode(s: string): (bs: seq<Byte>)
    ensures |bs| >= |s|
  {
    if s == [] then [] else EncodeChar(s[0]) + Encode(s[1..])
  }

  /** The offset test the program uses: the two ends, or a byte that begins a character. */
  predicate IsCharBoundary(bytes: seq<Byte>, k: nat) {
    k == 0 || k == |bytes| || (k < |bytes| && !IsContinuation(bytes[k]))
  }

  /** How many leading characters fit in `k` bytes. */
  function CharsWithin(s: string, k: nat): (n: nat)
    ensures n <= |s|
  {
    if s == [] || |EncodeChar(s[0])| > k then 0
    else 1 + CharsWithin(s[1..], k - |EncodeChar(s[0])|)
  }

  lemma {:induction false} EncodeConcat(s: string, t: string)
    ensures Encode(s + t) == Encode(s) + Encode(t)
  {
    if s == [] {
      assert s + t == t;
    } else {
      assert (s + t)[1..] == s[1..] + t;
      EncodeConcat(s[1..], t);
    }
  }

  lemma {:induction false} EncodeAscii(s: string)
    requires forall i | 0 <= i < |s| :: s[i] as int < 0x80
    ensures |Encode(s)| == |s|
  {
    if s != [] { EncodeAscii(s[1..]); }
  }

  /** `b` is the last boundary of `bytes` at or below `k`, and close to it. */
  ghost predicate LastBoundary(bytes: seq<Byte>, b: nat, k: nat) {
    && b <= k <= b + 3
    && IsCharBoundary(bytes, b)
    && forall j | b < j <= k :: !IsCharBoundary(bytes, j)
  }

  lemma LastBoundaryShift(c: char, tail: string, b: nat, k: nat)
    requires k <= |Encode(tail)| && LastBoundary(Encode(tail), b, k)
    ensures LastBoundary(EncodeChar(c) + Encode(tail), |EncodeChar(c)| + b, |EncodeChar(c)| + k)
  {
    var x, y := EncodeChar(c), Encode(tail);
    forall j: nat | j <= |y| ensures IsCharBoundary(x + y, |x| + j) <==> IsCharBoundary(y, j) {
      if j == 0 && tail != [] {
        assert y[0] == EncodeChar(tail[0])[0];
      }
    }
    forall j | |x| + b < j <= |x| + k ensures !IsCharBoundary(x + y, j) {
      assert !IsCharBoundary(y, j - |x|);
    }
  }

  lemma LastBoundaryInChar(c: char, tail: string, k: nat)
    requires k < |EncodeChar(c)|
    ensures LastBoundary(EncodeChar(c) + Encode(tail), 0, k)
  {
    var x, y := EncodeChar(c), Encode(tail);
    forall j | 0 < j <= k ensures !IsCharBoundary(x + y, j) {
      assert (x + y)[j] == x[j];
    }
  }

  /** The whole characters within `k` bytes end at the last boundary at or below
      `k`, at most three bytes short of it. */
  lemma {:induction false} CharsWithinIsLastBoundary(s: string, k: nat)
    requires k <= |Encode(s)|
    ensures LastBoundary(Encode(s), |Encode(s[..CharsWithin(s, k)])|, k)
  {
    var n := CharsWithin(s, k);
    if s == [] {
    } else if |EncodeChar(s[0])| > k {
      assert s[..n] == [];
      LastBoundaryInChar(s[0], s[1..], k);
    } else {
      CharsWithinIsLastBoundary(s[1..], k - |EncodeChar(s[0])|);
      assert s[..n][1..] == s[1..][..n - 1];
      LastBoundaryShift(s[0], s[1..], |Encode(s[1..][..n - 1])|, k - |EncodeChar(s[0])|);
    }
  }

  /** How far below `k` the last boundary lies. */
  function BoundaryGap(bytes: seq<Byte>, k: nat): (gap: nat)
    ensures gap <= k
  {
    if IsCharBoundary(bytes, k) then 0 else 1 + BoundaryGap(bytes, k - 1)
  }

  lemma {:induction false} GapToBoundary(bytes: seq<Byte>, b: nat, k: nat)
    requires LastBoundary(bytes, b, k)
    ensures BoundaryGap(bytes, k) == k - b
    decreases k
  {
    if b < k {
      assert !IsCharBoundary(bytes, k);
      GapToBoundary(bytes, b, k - 1);
    }
  }

  /** Cutting the bytes after a whole prefix of characters splits no character. */
  lemma PrefixSplitsBytes(s: string, n: nat)
    requires n <= |s|
    ensures Encode(s) == Encode(s[..n]) + Encode(s[n..])
  {
    assert s == s[..n] + s[n..];
    EncodeConcat(s[..n], s[n..]);
  }
}
