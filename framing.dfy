/**
 * Fixed-width framing of command payloads (`__format_request__`): a payload
 * is right-padded with ',' to the length its characteristic expects, and
 * becomes filler only when it is empty or does not fit.
 */
module Framing {

  const Filler: char := ','

  /** `n` filler characters; none for a negative `n`, as `range(n)` is then empty. */
  function Commas(n: int): string {
    seq(if n < 0 then 0 else n, _ => Filler)
  }

  /** The text is used as it is exactly when it is non-empty and no longer than the frame. */
  predicate Fits(s: string, length: int) {
    0 < |s| <= length
  }

  /** `__format_request__(strdata, length)`. */
  function FormatRequest(s: string, length: int): (r: string)
    ensures |r| == if length < 0 then 0 else length
    ensures Fits(s, length) ==> r[..|s|] == s
    ensures forall i :: 0 <= i < |r| ==> r[i] == if Fits(s, length) && i < |s| then s[i] else Filler
  {
    if |s| > 0 && length >= |s| then s + Commas(length - |s|) else Commas(length)
  }

  /** Drops the trailing filler of a frame: the receiving side's view of a payload. */
  function Unframe(p: string): (s: string)
    ensures |s| <= |p| && s == p[..|s|]
    ensures forall i :: |s| <= i < |p| ==> p[i] == Filler
    ensures s == [] || s[|s| - 1] != Filler
  {
    if p != [] && p[|p| - 1] == Filler then Unframe(p[..|p| - 1]) else p
  }

  /** Filler appended to a text is exactly what Unframe takes away again. */
  lemma {:induction false} UnframeAppendCommas(s: string, k: nat)
    ensures Unframe(s + Commas(k)) == Unframe(s)
  {
    if k > 0 {
      assert s + Commas(k) == (s + Commas(k - 1)) + [Filler];
      assert (s + Commas(k))[..|s + Commas(k)| - 1] == s + Commas(k - 1);
      UnframeAppendCommas(s, k - 1);
    } else {
      assert s + Commas(k) == s;
    }
  }

  /**
   * Unframe undoes FormatRequest for every text that fits and does not end in
   * filler; every other text comes back empty, because it was replaced by filler.
   */
  lemma UnframeFormatRequest(s: string, length: int)
    ensures Fits(s, length) ==> Unframe(FormatRequest(s, length)) == Unframe(s)
    ensures !Fits(s, length) ==> Unframe(FormatRequest(s, length)) == []
    ensures Fits(s, length) && s[|s| - 1] != Filler ==> Unframe(FormatRequest(s, length)) == s
  {
    if Fits(s, length) {
      UnframeAppendCommas(s, length - |s|);
    } else {
      UnframeAppendCommas([], if length < 0 then 0 else length);
      assert [] + Commas(length) == Commas(length);
    }
  }

  /** Framing a text that already fills its frame changes nothing; framing is idempotent. */
  lemma FormatRequestIdempotent(s: string, length: int)
    requires Fits(s, length)
    ensures FormatRequest(s, |s|) == s
    ensures FormatRequest(FormatRequest(s, length), length) == FormatRequest(s, length)
  {
    assert s + Commas(0) == s;
    var r := FormatRequest(s, length);
    assert r + Commas(0) == r;
  }
}
