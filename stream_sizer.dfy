/**
 * Preview size selection (`chooseOptimalSize`): the candidate sizes are split
 * into those with the aspect ratio of the first candidate that cover the
 * target view on both axes ("big enough") and the rest; the result is the
 * first smallest-area big-enough size, or failing that the first
 * largest-area size of the rest.
 */
module StreamSizer {
  import opened JavaInt

  /** An `android.util.Size`. */
  datatype Size = Size(width: Int32, height: Int32)

  /** `(long) s.getWidth() * s.getHeight()`: exact, since 64 bits hold any product of two ints. */
  function Area(s: Size): int {
    s.width * s.height
  }

  /**
   * The source's test for one candidate: same aspect ratio as `first`, by
   * the 32-bit Java expression `option.height == option.width * h / w`,
   * and at least as large as the target on both axes.
   */
  predicate BigEnough(option: Size, first: Size, targetWidth: Int32, targetHeight: Int32)
    requires first.width != 0
  {
    && option.height == Div(Mul(option.width, first.height), first.width)
    && option.width >= targetWidth
    && option.height >= targetHeight
  }

  /** Multiplying by a positive `d` keeps integers at least `d` apart. */
  lemma ScaleApart(a: int, b: int, d: int)
    requires a < b && d > 0
    ensures a * d + d <= b * d
  {
    var k := b - a - 1;
    assert k >= 0;
    assert k * d >= 0;
    assert b * d == a * d + d + k * d;
  }

  /** Truncating division of a non-negative `p` by a positive `d`: `q` is the quotient iff `q * d <= p < q * d + d`. */
  lemma QuotientBounds(p: int, d: int, q: int)
    requires p >= 0 && d > 0
    ensures q == p / d <==> q * d <= p < q * d + d
  {
    var q0 := p / d;
    assert q0 * d <= p < q0 * d + d;
    if q * d <= p < q * d + d && q != q0 {
      if q > q0 {
        ScaleApart(q0, q, d);
      } else {
        ScaleApart(q, q0, d);
      }
    }
  }

  /**
   * What `BigEnough` means when the product `option.width * h` does not
   * overflow and the reference width is positive: the height is the
   * truncated `width * h / w`, i.e. `height * w <= width * h < (height + 1) * w`,
   * and the candidate covers the target on both axes.
   */
  lemma BigEnoughMeaning(option: Size, first: Size, targetWidth: Int32, targetHeight: Int32)
    requires first.width > 0
    requires 0 <= option.width * first.height <= MaxInt
    ensures BigEnough(option, first, targetWidth, targetHeight)
        <==> && option.height * first.width <= option.width * first.height < (option.height + 1) * first.width
             && option.width >= targetWidth
             && option.height >= targetHeight
  {
    var p: int, d: int, h: int := option.width * first.height, first.width, option.height;
    AspectQuotient(option.width, first.height, d);
    QuotientBounds(p, d, h);
    assert (h + 1) * d == h * d + d;
  }

  /** Without overflow, the source's `width * h / w` is the Euclidean quotient. */
  lemma AspectQuotient(width: Int32, h: Int32, w: Int32)
    requires w > 0 && 0 <= width * h <= MaxInt
    ensures Div(Mul(width, h), w) == (width * h) / w
  {
    var p := width * h;
    assert Mul(width, h) == p;
    QuotientInRange(p, w);
    assert Quot(p, w) == p / w;
  }

  /** The quotient of a non-negative `p` by a positive `d` lies in [0, p]. */
  lemma QuotientInRange(p: int, d: int)
    requires p >= 0 && d > 0
    ensures 0 <= p / d <= p
  {
    var q := p / d;
    assert q * d <= p;
    if q > p {
      ScaleApart(p, q, d);
    }
  }

  /** A candidate with exactly the reference's aspect ratio is big enough iff it covers the target. */
  lemma SameAspectIsBigEnoughIffCovers(option: Size, first: Size, targetWidth: Int32, targetHeight: Int32)
    requires first.width > 0
    requires 0 <= option.width * first.height <= MaxInt
    requires option.height * first.width == option.width * first.height
    ensures BigEnough(option, first, targetWidth, targetHeight) <==> option.width >= targetWidth && option.height >= targetHeight
  {
    BigEnoughMeaning(option, first, targetWidth, targetHeight);
    assert (option.height + 1) * first.width == option.height * first.width + first.width;
  }

  /** The test of `BigEnough` against a fixed reference and target, as a predicate value. */
  function Fits(first: Size, targetWidth: Int32, targetHeight: Int32): Size -> bool
    requires first.width != 0
  {
    x => BigEnough(x, first, targetWidth, targetHeight)
  }

  /** The elements of `s` that satisfy `p`, in order (the source's `bigEnough` list). */
  function Keep(s: seq<Size>, p: Size -> bool): (r: seq<Size>)
    ensures forall x :: x in r <==> x in s && p(x)
  {
    if s == [] then []
    else
      var last := s[|s| - 1];
      assert s == s[..|s| - 1] + [last];
      if p(last) then Keep(s[..|s| - 1], p) + [last] else Keep(s[..|s| - 1], p)
  }

  /** The elements of `s` that fail `p`, in order (the source's `notBigEnough` list). */
  function Reject(s: seq<Size>, p: Size -> bool): (r: seq<Size>)
    ensures forall x :: x in r <==> x in s && !p(x)
  {
    if s == [] then []
    else
      var last := s[|s| - 1];
      assert s == s[..|s| - 1] + [last];
      if p(last) then Reject(s[..|s| - 1], p) else Reject(s[..|s| - 1], p) + [last]
  }

  /**
   * `Collections.min` by area: the candidate is replaced only by a strictly
   * smaller one, so the result is the first element of least area.
   */
  function FirstMin(s: seq<Size>): (r: Size)
    requires |s| > 0
    ensures r in s
    ensures forall i :: 0 <= i < |s| ==> Area(r) <= Area(s[i])
    ensures exists k :: 0 <= k < |s| && s[k] == r && forall j :: 0 <= j < k ==> Area(s[j]) > Area(r)
  {
    if |s| == 1 then s[0]
    else
      var init := s[..|s| - 1];
      var m := FirstMin(init);
      var last := s[|s| - 1];
      assert forall i :: 0 <= i < |init| ==> init[i] == s[i];
      if Area(last) < Area(m) then last else m
  }

  /**
   * `Collections.max` by area: the candidate is replaced only by a strictly
   * larger one, so the result is the first element of greatest area.
   */
  function FirstMax(s: seq<Size>): (r: Size)
    requires |s| > 0
    ensures r in s
    ensures forall i :: 0 <= i < |s| ==> Area(s[i]) <= Area(r)
    ensures exists k :: 0 <= k < |s| && s[k] == r && forall j :: 0 <= j < k ==> Area(s[j]) < Area(r)
  {
    if |s| == 1 then s[0]
    else
      var init := s[..|s| - 1];
      var m := FirstMax(init);
      var last := s[|s| - 1];
      assert forall i :: 0 <= i < |init| ==> init[i] == s[i];
      if Area(last) > Area(m) then last else m
  }

  /** Every candidate lands in exactly one of the two lists. */
  lemma {:induction false} PartitionLength(s: seq<Size>, p: Size -> bool)
    ensures |Keep(s, p)| + |Reject(s, p)| == |s|
  {
    if s != [] {
      PartitionLength(s[..|s| - 1], p);
    }
  }

  /** The size chooseOptimalSize returns, with the list operations as functions. */
  function OptimalSize(choices: seq<Size>, targetWidth: Int32, targetHeight: Int32): (r: Size)
    requires |choices| > 0 && choices[0].width != 0
    ensures r in choices
  {
    var fits := Fits(choices[0], targetWidth, targetHeight);
    if |Keep(choices, fits)| > 0 then FirstMin(Keep(choices, fits))
    else
      PartitionLength(choices, fits);
      FirstMax(Reject(choices, fits))
  }

  /**
   * The source's loop: partition `choices` into the two lists, then take the
   * minimum of the first or the maximum of the second.
   */
  method ChooseOptimalSize(choices: seq<Size>, targetWidth: Int32, targetHeight: Int32) returns (r: Size)
    requires |choices| > 0 && choices[0].width != 0
    ensures r == OptimalSize(choices, targetWidth, targetHeight)
  {
    var bigEnough: seq<Size> := [];
    var notBigEnough: seq<Size> := [];
    var w := choices[0].width;
    var h := choices[0].height;
    ghost var fits := Fits(choices[0], targetWidth, targetHeight);
    for i := 0 to |choices|
      invariant bigEnough == Keep(choices[..i], fits)
      invariant notBigEnough == Reject(choices[..i], fits)
    {
      var option := choices[i];
      assert choices[..i + 1][..i] == choices[..i];
      if option.height == Div(Mul(option.width, h), w) && option.width >= targetWidth && option.height >= targetHeight {
        bigEnough := bigEnough + [option];
      } else {
        notBigEnough := notBigEnough + [option];
      }
    }
    assert choices[..|choices|] == choices;
    PartitionLength(choices, fits);
    if |bigEnough| > 0 {
      r := FirstMin(bigEnough);
    } else if |notBigEnough| > 0 {
      r := FirstMax(notBigEnough);
    } else {
      // the source's final `return choices[0]`: never reached for a non-empty input
      assert false;
    }
  }

  /**
   * `s[k]` satisfies `p`, no element satisfying `p` has a smaller area, and
   * every one before index `k` has a strictly larger area.
   */
  ghost predicate FirstLeastAt(s: seq<Size>, p: Size -> bool, k: int)
  {
    && 0 <= k < |s| && p(s[k])
    && (forall j :: 0 <= j < |s| && p(s[j]) ==> Area(s[k]) <= Area(s[j]))
    && (forall j :: 0 <= j < k && p(s[j]) ==> Area(s[j]) > Area(s[k]))
  }

  /** Appending an element that fails `p` keeps the position of the first least element. */
  lemma ExtendRejected(s: seq<Size>, p: Size -> bool, x: Size, k: int)
    requires FirstLeastAt(s, p, k) && !p(x)
    ensures FirstLeastAt(s + [x], p, k)
  {
    assert forall j :: 0 <= j < |s| ==> (s + [x])[j] == s[j];
  }

  /** Appending an element that satisfies `p` but is no smaller keeps that position. */
  lemma ExtendNotSmaller(s: seq<Size>, p: Size -> bool, x: Size, k: int)
    requires FirstLeastAt(s, p, k) && p(x) && Area(s[k]) <= Area(x)
    ensures FirstLeastAt(s + [x], p, k)
  {
    assert forall j :: 0 <= j < |s| ==> (s + [x])[j] == s[j];
  }

  /**
   * An appended element satisfying `p` becomes the first least element when
   * it is strictly smaller than every earlier element satisfying `p`.
   */
  lemma ExtendSmaller(s: seq<Size>, p: Size -> bool, x: Size)
    requires p(x)
    requires forall j :: 0 <= j < |s| && p(s[j]) ==> Area(x) < Area(s[j])
    ensures FirstLeastAt(s + [x], p, |s|)
  {
    assert forall j :: 0 <= j < |s| ==> (s + [x])[j] == s[j];
  }

  /** The first least-area element of `Keep(s, p)`, located in `s` itself. */
  lemma {:induction false} FirstMinOfKept(s: seq<Size>, p: Size -> bool)
    requires Keep(s, p) != []
    ensures exists k :: FirstLeastAt(s, p, k) && s[k] == FirstMin(Keep(s, p))
    decreases |s|, 1
  {
    var n := |s| - 1;
    if !p(s[n]) {
      FirstMinAfterRejected(s, p);
    } else if Keep(s[..n], p) == [] {
      FirstMinAfterFirstKept(s, p);
    } else {
      FirstMinAfterKept(s, p);
    }
  }

  /** Case of FirstMinOfKept: the last element fails `p`. */
  lemma {:induction false} FirstMinAfterRejected(s: seq<Size>, p: Size -> bool)
    requires Keep(s, p) != [] && !p(s[|s| - 1])
    ensures exists k :: FirstLeastAt(s, p, k) && s[k] == FirstMin(Keep(s, p))
    decreases |s|, 0
  {
    var n := |s| - 1;
    var init, last := s[..n], s[n];
    assert s == init + [last];
    assert Keep(s, p) == Keep(init, p);
    FirstMinOfKept(init, p);
    var k :| FirstLeastAt(init, p, k) && init[k] == FirstMin(Keep(init, p));
    ExtendRejected(init, p, last, k);
  }

  /** Case of FirstMinOfKept: the last element is the only one satisfying `p`. */
  lemma FirstMinAfterFirstKept(s: seq<Size>, p: Size -> bool)
    requires |s| > 0 && p(s[|s| - 1]) && Keep(s[..|s| - 1], p) == []
    ensures exists k :: FirstLeastAt(s, p, k) && s[k] == FirstMin(Keep(s, p))
  {
    var n := |s| - 1;
    var init, last := s[..n], s[n];
    assert s == init + [last];
    assert Keep(s, p) == [last];
    forall j | 0 <= j < n ensures !p(init[j]) {
      assert init[j] in init;
    }
    ExtendSmaller(init, p, last);
    assert FirstLeastAt(s, p, n);
  }

  /** Case of FirstMinOfKept: the last element satisfies `p`, and so does an earlier one. */
  lemma {:induction false} FirstMinAfterKept(s: seq<Size>, p: Size -> bool)
    requires |s| > 0 && p(s[|s| - 1]) && Keep(s[..|s| - 1], p) != []
    ensures exists k :: FirstLeastAt(s, p, k) && s[k] == FirstMin(Keep(s, p))
    decreases |s|, 0
  {
    var n := |s| - 1;
    var init, last := s[..n], s[n];
    assert s == init + [last];
    var kept, keptInit := Keep(s, p), Keep(init, p);
    assert kept == keptInit + [last];
    assert kept[..|kept| - 1] == keptInit;
    FirstMinOfKept(init, p);
    var k :| FirstLeastAt(init, p, k) && init[k] == FirstMin(keptInit);
    if Area(last) < Area(init[k]) {
      ExtendSmaller(init, p, last);
      assert FirstLeastAt(s, p, n);
    } else {
      ExtendNotSmaller(init, p, last, k);
      assert s[k] == FirstMin(kept);
    }
  }

  /** When no element satisfies `p`, `Reject` keeps the whole sequence in order. */
  lemma {:induction false} RejectAll(s: seq<Size>, p: Size -> bool)
    requires forall i :: 0 <= i < |s| ==> !p(s[i])
    ensures Keep(s, p) == []
    ensures Reject(s, p) == s
  {
    if s != [] {
      var n := |s| - 1;
      assert s == s[..n] + [s[n]];
      RejectAll(s[..n], p);
    }
  }

  /**
   * When some candidate (here `choices[i]`) is big enough, the result is the
   * first big-enough candidate of least area (in the order of `choices`).
   */
  lemma OptimalSizeWhenBigEnough(choices: seq<Size>, targetWidth: Int32, targetHeight: Int32, i: nat)
    requires |choices| > 0 && choices[0].width != 0
    requires i < |choices| && BigEnough(choices[i], choices[0], targetWidth, targetHeight)
    ensures var r := OptimalSize(choices, targetWidth, targetHeight);
      exists k :: 0 <= k < |choices| && choices[k] == r
        && BigEnough(r, choices[0], targetWidth, targetHeight)
        && (forall j :: 0 <= j < |choices| && BigEnough(choices[j], choices[0], targetWidth, targetHeight) ==> Area(r) <= Area(choices[j]))
        && (forall j :: 0 <= j < k && BigEnough(choices[j], choices[0], targetWidth, targetHeight) ==> Area(choices[j]) > Area(r))
  {
    var fits := Fits(choices[0], targetWidth, targetHeight);
    assert fits(choices[i]);
    assert choices[i] in Keep(choices, fits);
    FirstMinOfKept(choices, fits);
    var k :| FirstLeastAt(choices, fits, k) && choices[k] == FirstMin(Keep(choices, fits));
    var r := OptimalSize(choices, targetWidth, targetHeight);
    assert choices[k] == r && fits(r);
    forall j | 0 <= j < |choices| && BigEnough(choices[j], choices[0], targetWidth, targetHeight)
      ensures Area(r) <= Area(choices[j])
    {
      assert fits(choices[j]);
    }
    forall j | 0 <= j < k && BigEnough(choices[j], choices[0], targetWidth, targetHeight)
      ensures Area(choices[j]) > Area(r)
    {
      assert fits(choices[j]);
    }
  }

  /**
   * When no candidate is big enough, `notBigEnough` is the whole input and
   * the result is the first candidate of greatest area.
   */
  lemma OptimalSizeWhenNoneBigEnough(choices: seq<Size>, targetWidth: Int32, targetHeight: Int32)
    requires |choices| > 0 && choices[0].width != 0
    requires forall i :: 0 <= i < |choices| ==> !BigEnough(choices[i], choices[0], targetWidth, targetHeight)
    ensures Reject(choices, Fits(choices[0], targetWidth, targetHeight)) == choices
    ensures var r := OptimalSize(choices, targetWidth, targetHeight);
      exists k :: 0 <= k < |choices| && choices[k] == r
        && (forall j :: 0 <= j < |choices| ==> Area(choices[j]) <= Area(r))
        && (forall j :: 0 <= j < k ==> Area(choices[j]) < Area(r))
  {
    RejectAll(choices, Fits(choices[0], targetWidth, targetHeight));
  }
}
