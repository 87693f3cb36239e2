/**
 * Comma-separated decimal fields, the natural form of every numeric command
 * ("%d,%d,%d,%d" and its kin), and the reading of a framed payload back into
 * its fields.
 */
module Fields {
  import opened Wrappers
  import opened Decimal
  import opened Framing

  /** The fields rendered in decimal and joined by ',', left to right as "%d,%d,…" builds it. */
  function Join(xs: seq<nat>): (s: string)
    requires |xs| > 0
    ensures |s| > 0 && IsDigit(s[0]) && IsDigit(s[|s| - 1])
    decreases |xs|
  {
    if |xs| == 1 then Render(xs[0]) else Join(xs[..|xs| - 1]) + "," + Render(xs[|xs| - 1])
  }

  /** Splits a text at every ','; a text without ',' is one part. */
  function Split(s: string): (parts: seq<string>)
    ensures |parts| >= 1
  {
    if s == [] then [[]]
    else
      var rest := Split(s[..|s| - 1]);
      if s[|s| - 1] == ',' then rest + [[]]
      else rest[..|rest| - 1] + [rest[|rest| - 1] + [s[|s| - 1]]]
  }

  function ParseNumber(w: string): Option<nat> {
    if w != [] && AllDigits(w) then Some(ValueOf(w)) else None
  }

  function ParseNumbers(parts: seq<string>): Option<seq<nat>> {
    if parts == [] then Some([])
    else
      match (ParseNumbers(parts[..|parts| - 1]), ParseNumber(parts[|parts| - 1]))
      case (Some(xs), Some(x)) => Some(xs + [x])
      case _ => None
  }

  /** The fields a framed payload carries, or None when it is not a list of numbers. */
  function DecodeFields(p: string): Option<seq<nat>> {
    ParseNumbers(Split(Unframe(p)))
  }

  predicate NoComma(w: string) {
    forall i :: 0 <= i < |w| ==> w[i] != ','
  }

  /** Split, one character appended: a ',' opens a new part, any other character extends the last part. */
  lemma SplitSnoc(s: string, c: char)
    ensures var parts := Split(s);
      Split(s + [c]) == if c == ',' then parts + [[]] else parts[..|parts| - 1] + [parts[|parts| - 1] + [c]]
  {
    assert (s + [c])[..|s + [c]| - 1] == s;
  }

  /** A word without ',' that follows a text and a ',' becomes the last part. */
  lemma {:induction false} SplitBeforeWord(t: string, w: string)
    requires NoComma(w)
    ensures Split(t + "," + w) == Split(t) + [w]
    decreases |w|
  {
    if w == [] {
      assert t + "," + w == t + [','];
      SplitSnoc(t, ',');
    } else {
      var w', c := w[..|w| - 1], w[|w| - 1];
      assert t + "," + w == (t + "," + w') + [c];
      SplitBeforeWord(t, w');
      SplitSnoc(t + "," + w', c);
      var parts := Split(t) + [w'];
      assert parts[..|parts| - 1] == Split(t);
      assert w' + [c] == w;
    }
  }

  lemma {:induction false} SplitWord(w: string)
    requires NoComma(w)
    ensures Split(w) == [w]
    decreases |w|
  {
    if w != [] {
      var w' := w[..|w| - 1];
      SplitWord(w');
      assert w' + [w[|w| - 1]] == w;
    }
  }

  lemma ParseNumbersSnoc(ps: seq<string>, w: string, ys: seq<nat>, y: nat)
    requires ParseNumbers(ps) == Some(ys) && ParseNumber(w) == Some(y)
    ensures ParseNumbers(ps + [w]) == Some(ys + [y])
  {
    assert (ps + [w])[..|ps + [w]| - 1] == ps;
  }

  lemma ParseRendered(n: nat)
    ensures ParseNumber(Render(n)) == Some(n) && NoComma(Render(n))
  {
    ValueOfRender(n);
  }

  /**
   * A non-empty list is its front and its last element. Stated apart so that
   * the induction step of `DecodeJoin` is spared proving it in its own context.
   */
  lemma SplitLast(xs: seq<nat>)
    requires |xs| > 0
    ensures xs[..|xs| - 1] + [xs[|xs| - 1]] == xs
  {
  }

  /** A comma and a number appended to a list of numbers parse as that list and the number. */
  lemma DecodeSnoc(t: string, w: string, ys: seq<nat>, y: nat)
    requires ParseNumbers(Split(t)) == Some(ys)
    requires ParseNumber(w) == Some(y) && NoComma(w)
    ensures ParseNumbers(Split(t + "," + w)) == Some(ys + [y])
  {
    SplitBeforeWord(t, w);
    ParseNumbersSnoc(Split(t), w, ys, y);
  }

  /** A single number word parses as that one number. */
  lemma DecodeWord(w: string, y: nat)
    requires NoComma(w) && ParseNumber(w) == Some(y)
    ensures ParseNumbers(Split(w)) == Some([y])
  {
    SplitWord(w);
    ParseNumbersSnoc([], w, [], y);
    assert [] + [w] == [w];
    assert [] + [y] == [y];
  }

  /** A single rendered number parses as itself. */
  lemma DecodeSingle(n: nat)
    ensures ParseNumbers(Split(Render(n))) == Some([n])
  {
    ParseRendered(n);
    DecodeWord(Render(n), n);
  }

  /** Splitting and parsing the joined text gives back the fields. */
  lemma {:induction false} DecodeJoin(xs: seq<nat>)
    requires |xs| > 0
    ensures ParseNumbers(Split(Join(xs))) == Some(xs)
    decreases |xs|
  {
    var n := |xs|;
    if n == 1 {
      DecodeSingle(xs[0]);
      assert [xs[0]] == xs;
    } else {
      var init, last := xs[..n - 1], xs[n - 1];
      var t, w := Join(init), Render(last);
      assert Join(xs) == t + "," + w;
      DecodeJoin(init);
      ParseRendered(last);
      DecodeSnoc(t, w, init, last);
      SplitLast(xs);
    }
  }

  /**
   * Round trip of the framing: fields whose text fits the frame are recovered
   * exactly from the padded payload, so the filler fallback did not occur.
   */
  lemma FramedFieldsRoundTrip(xs: seq<nat>, length: int)
    requires |xs| > 0 && |Join(xs)| <= length
    ensures DecodeFields(FormatRequest(Join(xs), length)) == Some(xs)
  {
    UnframeFormatRequest(Join(xs), length);
    DecodeJoin(xs);
  }

  /** A payload that is filler only carries no fields. */
  lemma FillerCarriesNothing(length: int)
    ensures DecodeFields(Commas(length)) == None
  {
    UnframeAppendCommas([], if length < 0 then 0 else length);
    assert [] + Commas(length) == Commas(length);
    assert Split([]) == [[]];
  }

  /** The natural text of four fields is `"%d,%d,%d,%d"`. */
  lemma Join4(a: nat, b: nat, c: nat, d: nat)
    ensures Join([a, b, c, d]) == Render(a) + "," + Render(b) + "," + Render(c) + "," + Render(d)
  {
    assert [a, b, c, d][..3] == [a, b, c];
    assert [a, b, c][..2] == [a, b];
    assert [a, b][..1] == [a];
    assert Join([a, b]) == Render(a) + "," + Render(b);
    assert Join([a, b, c]) == Join([a, b]) + "," + Render(c);
    assert Join([a, b, c, d]) == Join([a, b, c]) + "," + Render(d);
  }

  /** The natural text of two fields is `"%d,%d"`. */
  lemma Join2(a: nat, b: nat)
    ensures Join([a, b]) == Render(a) + "," + Render(b)
  {
    assert [a, b][..1] == [a];
    assert Join([a, b]) == Join([a]) + "," + Render(b);
  }

  /** The natural text of six fields is `"%d,%d,%d,%d,%d,%d"`. */
  lemma Join6(a: nat, b: nat, c: nat, d: nat, e: nat, f: nat)
    ensures Join([a, b, c, d, e, f]) == Render(a) + "," + Render(b) + "," + Render(c) + "," + Render(d) + "," + Render(e) + "," + Render(f)
  {
    assert [a, b, c, d, e, f][..5] == [a, b, c, d, e];
    assert [a, b, c, d, e][..4] == [a, b, c, d];
    Join4(a, b, c, d);
    assert Join([a, b, c, d, e]) == Join([a, b, c, d]) + "," + Render(e);
    assert Join([a, b, c, d, e, f]) == Join([a, b, c, d, e]) + "," + Render(f);
  }
}
