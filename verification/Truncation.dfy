/** `truncate_text_to_bytes`: a prefix cut at a character boundary plus a marker
    that tells how many bytes were dropped. */
module Truncation {
  import opened Conversation
  import opened Utf8
  import Decimal

  const MARKER_RESERVE: nat := 64
  const MARKER_HEAD := "\n[... truncated "
  const MARKER_TAIL := " bytes to fit the compaction window ...]"

  function Marker(dropped: nat): string {
    MARKER_HEAD + Decimal.Print(dropped) + MARKER_TAIL
  }

  function ByteLen(s: string): nat { |Encode(s)| }

  /** The byte offset the program aims at. */
  function Keep(maxBytes: nat): nat {
    if maxBytes >= MARKER_RESERVE then maxBytes - MARKER_RESERVE else 0
  }

  /** The kept prefix: the whole characters within the offset. */
  function KeptPrefix(s: string, maxBytes: nat): string {
    s[..CharsWithin(s, Keep(maxBytes))]
  }

  /** The bytes that are not kept. */
  function Dropped(s: string, maxBytes: nat): nat {
    PrefixBytes(s, CharsWithin(s, Keep(maxBytes)));
    ByteLen(s) - ByteLen(KeptPrefix(s, maxBytes))
  }

  lemma PrefixBytes(s: string, n: nat)
    requires n <= |s|
    ensures ByteLen(s[..n]) <= ByteLen(s)
  {
    PrefixSplitsBytes(s, n);
  }

  function TruncateText(s: string, maxBytes: nat): Option<string> {
    if ByteLen(s) <= maxBytes then None
    else Some(KeptPrefix(s, maxBytes) + Marker(Dropped(s, maxBytes)))
  }

  /** The program's loop: step back from the offset to a boundary. */
  method TruncateTextToBytes(s: string, maxBytes: nat) returns (r: Option<string>)
    ensures r == TruncateText(s, maxBytes)
  {
    var bytes := Encode(s);
    if |bytes| <= maxBytes {
      return None;
    }
    var keep := if maxBytes >= MARKER_RESERVE then maxBytes - MARKER_RESERVE else 0;
    var end := if keep < |bytes| then keep else |bytes|;
    CharsWithinIsLastBoundary(s, end);
    ghost var b := ByteLen(KeptPrefix(s, maxBytes));
    while end > 0 && !IsCharBoundary(bytes, end)
      invariant b <= end <= keep
    {
      end := end - 1;
    }
    assert end == b;
    WholePrefix(s, keep);
    var dropped := |bytes| - end;
    r := Some(s[..CharsWithin(s, end)] + Marker(dropped));
  }

  /** Asking for exactly the bytes of a whole prefix returns that prefix. */
  lemma {:induction false} WholePrefix(s: string, k: nat)
    ensures CharsWithin(s, ByteLen(s[..CharsWithin(s, k)])) == CharsWithin(s, k)
  {
    var n := CharsWithin(s, k);
    if s != [] && |EncodeChar(s[0])| <= k {
      WholePrefix(s[1..], k - |EncodeChar(s[0])|);
      assert s[..n][1..] == s[1..][..n - 1];
    }
  }

  lemma MarkerLength(d: nat)
    ensures ByteLen(Marker(d)) == 56 + |Decimal.Print(d)|
  {
    EncodeAscii(Marker(d));
    assert |MARKER_HEAD| == 16;
    assert |MARKER_TAIL| == 40;
  }

  /** The cut is at a character boundary, at most three bytes below the offset,
      and the output has exactly the bytes of the prefix, 56, and the digits. */
  lemma TruncationCut(s: string, maxBytes: nat)
    requires ByteLen(s) > maxBytes
    ensures var p := KeptPrefix(s, maxBytes);
            var out := TruncateText(s, maxBytes).value;
            && p <= s && p <= out
            && Encode(p) <= Encode(s) && IsCharBoundary(Encode(s), ByteLen(p))
            && Keep(maxBytes) - 3 <= ByteLen(p) <= Keep(maxBytes)
            && ByteLen(out) == ByteLen(p) + 56 + |Decimal.Print(Dropped(s, maxBytes))|
  {
    var p := KeptPrefix(s, maxBytes);
    CharsWithinIsLastBoundary(s, Keep(maxBytes));
    PrefixSplitsBytes(s, CharsWithin(s, Keep(maxBytes)));
    EncodeConcat(p, Marker(Dropped(s, maxBytes)));
    MarkerLength(Dropped(s, maxBytes));
  }

  /** Bytes given up below the offset to reach a boundary, read off the input. */
  function Gap(s: string, maxBytes: nat): nat {
    BoundaryGap(Encode(s), Keep(maxBytes))
  }

  lemma KeptBytes(s: string, maxBytes: nat)
    requires ByteLen(s) > maxBytes
    ensures Gap(s, maxBytes) <= 3 && Gap(s, maxBytes) <= Keep(maxBytes)
    ensures ByteLen(KeptPrefix(s, maxBytes)) == Keep(maxBytes) - Gap(s, maxBytes)
    ensures Dropped(s, maxBytes) == ByteLen(s) - (Keep(maxBytes) - Gap(s, maxBytes))
  {
    CharsWithinIsLastBoundary(s, Keep(maxBytes));
    GapToBoundary(Encode(s), ByteLen(KeptPrefix(s, maxBytes)), Keep(maxBytes));
  }

  /** The text after truncation to a limit. */
  function TruncateOr(s: string, maxBytes: nat): string {
    match TruncateText(s, maxBytes) case Some(t) => t case None => s
  }

  /** Its length, read off the input: the bytes up to the boundary, 56, and the
      digits of what is dropped. */
  function OutputBytes(s: string, maxBytes: nat): nat {
    if ByteLen(s) <= maxBytes then ByteLen(s)
    else
      var kept: int := Keep(maxBytes) - Gap(s, maxBytes);
      kept + 56 + |Decimal.Print(ByteLen(s) - kept)|
  }

  lemma OutputLength(s: string, maxBytes: nat)
    ensures ByteLen(TruncateOr(s, maxBytes)) == OutputBytes(s, maxBytes)
  {
    if ByteLen(s) > maxBytes {
      assert TruncateOr(s, maxBytes) == TruncateText(s, maxBytes).value;
      TruncatedLength(s, maxBytes);
      KeptBytes(s, maxBytes);
    }
  }

  lemma TruncatedLength(s: string, maxBytes: nat)
    requires ByteLen(s) > maxBytes
    ensures ByteLen(TruncateText(s, maxBytes).value) ==
            ByteLen(KeptPrefix(s, maxBytes)) + 56 + |Decimal.Print(Dropped(s, maxBytes))|
  {
    TruncationCut(s, maxBytes);
  }

  /** When the output keeps the promised bound, told from the length of the text
      and the distance to a boundary: from 64 bytes on, exactly when the dropped
      count has at most eight digits, plus one for each byte given up; below 64
      bytes, exactly when the bare marker fits. */
  lemma TruncationFits(s: string, maxBytes: nat)
    requires ByteLen(s) > maxBytes
    ensures var fits := ByteLen(TruncateText(s, maxBytes).value) <= maxBytes;
            if maxBytes >= MARKER_RESERVE then
              fits <==> ByteLen(s) + MARKER_RESERVE + Gap(s, maxBytes) < maxBytes + Decimal.Pow10(8 + Gap(s, maxBytes))
            else
              fits <==> maxBytes >= 57 && ByteLen(s) < Decimal.Pow10(maxBytes - 56)
  {
    TruncatedLength(s, maxBytes);
    KeptBytes(s, maxBytes);
    if maxBytes >= MARKER_RESERVE {
      Decimal.PrintLength(Dropped(s, maxBytes), 8 + Gap(s, maxBytes));
    } else if maxBytes >= 57 {
      Decimal.PrintLength(ByteLen(s), maxBytes - 56);
    }
  }

  /** A text with at most `d` digits of length overshoots by `d - 8` at most, or
      is the bare marker. */
  lemma OutputBound(s: string, maxBytes: nat, d: nat)
    requires d >= 8 && ByteLen(s) < Decimal.Pow10(d)
    ensures OutputBytes(s, maxBytes) <= if maxBytes >= MARKER_RESERVE then maxBytes + d - 8 else 56 + d
  {
    if ByteLen(s) > maxBytes {
      KeptBytes(s, maxBytes);
      Decimal.PrintLength(Dropped(s, maxBytes), d);
    }
  }

  /** In particular the bound holds from 64 bytes on while fewer than 10^8 bytes
      are dropped. */
  lemma TruncationFitsUsually(s: string, maxBytes: nat)
    requires ByteLen(s) > maxBytes >= MARKER_RESERVE && Dropped(s, maxBytes) < 100_000_000
    ensures ByteLen(TruncateText(s, maxBytes).value) <= maxBytes
  {
    TruncationCut(s, maxBytes);
    assert Decimal.Pow10(4) == 10_000;
    assert Decimal.Pow10(8) == 100_000_000;
    Decimal.PrintLength(Dropped(s, maxBytes), 8);
  }

  /** A short text that is a little too long gets longer, not shorter. */
  lemma TruncationCanGrow(s: string, maxBytes: nat)
    requires maxBytes < ByteLen(s) <= 56
    ensures ByteLen(TruncateText(s, maxBytes).value) > ByteLen(s)
  {
    TruncationCut(s, maxBytes);
  }
}
