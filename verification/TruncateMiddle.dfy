/** Shortening the text of a thread before it is embedded (src/embed_queue.rs). */
module TruncateMiddle {
  import opened Bytes
  import opened Naturals
  import opened Utf8

  const MARKER: seq<byte> := [
    10, 46, 46, 46, 91, 116, 104, 114, 101, 97, 100, 32, 116, 101, 120, 116,
    32, 116, 114, 117, 110, 99, 97, 116, 101, 100, 93, 46, 46, 46, 10]

  lemma MarkerText()
    ensures var text := "\n...[thread text truncated]...\n";
            |MARKER| == |text| && forall i :: 0 <= i < |text| ==> MARKER[i] as int == text[i] as int
  {
  }

  /** The last boundary at or before `idx`. */
  method FloorCharBoundary(text: seq<byte>, idx: nat) returns (r: nat)
    ensures r <= idx && r <= |text| && IsBoundary(text, r)
    ensures forall k :: r < k <= Min(idx, |text|) ==> !IsBoundary(text, k)
  {
    r := Min(idx, |text|);
    while r > 0 && !IsBoundary(text, r)
      invariant r <= Min(idx, |text|)
      invariant forall k :: r < k <= Min(idx, |text|) ==> !IsBoundary(text, k)
    {
      r := r - 1;
    }
  }

  /** The first boundary at or after `idx`. */
  method CeilCharBoundary(text: seq<byte>, idx: nat) returns (r: nat)
    ensures Min(idx, |text|) <= r <= |text| && IsBoundary(text, r)
    ensures forall k :: Min(idx, |text|) <= k < r ==> !IsBoundary(text, k)
  {
    r := Min(idx, |text|);
    while r < |text| && !IsBoundary(text, r)
      invariant Min(idx, |text|) <= r <= |text|
      invariant forall k :: Min(idx, |text|) <= k < r ==> !IsBoundary(text, k)
    {
      r := r + 1;
    }
  }

  /** A valid text cut at two boundaries, with the marker in between. */
  predicate IsMiddleCut(text: seq<byte>, result: seq<byte>, head: nat, tail: nat) {
    && head <= tail <= |text|
    && IsBoundary(text, head) && IsBoundary(text, tail)
    && result == text[..head] + MARKER + text[tail..]
  }

  lemma MiddleCutValid(text: seq<byte>, result: seq<byte>, head: nat, tail: nat)
    requires Valid(text) && IsMiddleCut(text, result, head, tail)
    ensures Valid(result)
  {
    ValidCut(text, head);
    ValidCut(text, tail);
    AsciiValid(MARKER);
    ValidConcat(text[..head], MARKER);
    ValidConcat(text[..head] + MARKER, text[tail..]);
  }

  method TruncateMiddle(text: seq<byte>, maxBytes: nat) returns (result: seq<byte>, ghost head: nat, ghost tail: nat)
    requires Valid(text)
    ensures Valid(result)
    ensures |text| <= maxBytes ==> result == text
    ensures |text| > maxBytes ==> |result| <= maxBytes <= |result| + 3
    ensures |text| > maxBytes && maxBytes <= |MARKER| ==> result <= text
    ensures |text| > maxBytes > |MARKER| ==>
              && IsMiddleCut(text, result, head, tail)
              && head <= (maxBytes - |MARKER|) / 2 <= head + 3
  {
    head, tail := 0, 0;
    if |text| <= maxBytes {
      return text, 0, 0;
    }
    if maxBytes <= |MARKER| {
      var cut := FloorCharBoundary(text, maxBytes);
      ghost var below, above := BoundaryNear(text, maxBytes);
      assert below <= cut;
      ValidCut(text, cut);
      return text[..cut], 0, 0;
    }
    var available := maxBytes - |MARKER|;
    var headLen := FloorCharBoundary(text, available / 2);
    ghost var below, above := BoundaryNear(text, available / 2);
    assert below <= headLen;
    var from := |text| - (available - headLen);
    var tailStart := CeilCharBoundary(text, from);
    below, above := BoundaryNear(text, from);
    assert tailStart <= above;
    result := text[..headLen] + MARKER + text[tailStart..];
    head, tail := headLen, tailStart;
    MiddleCutValid(text, result, head, tail);
  }
}
