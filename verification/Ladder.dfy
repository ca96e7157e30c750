/**
 The sizes of internal/pipeline/plan.go: rungsFor, fit and even. Scaling is exact real arithmetic.
 */
module Ladder {

  datatype Rung = Rung(name: string, width: int, height: int, crf: int, maxrateBps: int)

  function Ceil(x: real): int {
    -((-x).Floor)
  }

  /** Nearest even number, ties downwards, never below 2. */
  function Even(v: real): (n: int)
    ensures n % 2 == 0 && n >= 2
  {
    var n := Ceil(v / 2.0 - 0.5) * 2;
    if n < 2 then 2 else n
  }

  function Scale(rungW: int, rungH: int, sourceW: int, sourceH: int): real
    requires sourceW > 0 && sourceH > 0
  {
    var x, y := rungW as real / sourceW as real, rungH as real / sourceH as real;
    if x < y then x else y
  }

  datatype Size = Size(width: int, height: int)

  datatype ExactSize = ExactSize(width: real, height: real)

  /** The size fit is about to round. */
  function Exact(rungW: int, rungH: int, sourceW: int, sourceH: int): ExactSize {
    if sourceW <= 0 || sourceH <= 0 then ExactSize(rungW as real, rungH as real)
    else if sourceW <= rungW && sourceH <= rungH then ExactSize(sourceW as real, sourceH as real)
    else Scaled(sourceW, sourceH, Scale(rungW, rungH, sourceW, sourceH))
  }

  function Scaled(sourceW: int, sourceH: int, scale: real): ExactSize {
    ExactSize(sourceW as real * scale, sourceH as real * scale)
  }

  function Fit(rungW: int, rungH: int, sourceW: int, sourceH: int): Size {
    var exact := Exact(rungW, rungH, sourceW, sourceH);
    Size(Even(exact.width), Even(exact.height))
  }

  /** The rungs the first loop of rungsFor keeps: none taller than a source of known height. */
  function Kept(ladder: seq<Rung>, height: int): seq<Rung> {
    if ladder == [] then []
    else
      var front, last := Kept(ladder[..|ladder| - 1], height), ladder[|ladder| - 1];
      if height > 0 && last.height > height then front else front + [last]
  }

  function RungsOf(ladder: seq<Rung>, width: int, height: int): seq<Rung> {
    var kept := Kept(ladder, height);
    if kept == [] && ladder != [] then [ladder[|ladder| - 1].(width := width, height := height)]
    else kept
  }

  method RungsFor(ladder: seq<Rung>, width: int, height: int) returns (out: seq<Rung>)
    ensures out == RungsOf(ladder, width, height)
    ensures ladder != [] ==> out != []
  {
    out := [];
    for i := 0 to |ladder|
      invariant out == Kept(ladder[..i], height)
    {
      assert ladder[..i + 1][..i] == ladder[..i];
      var rung := ladder[i];
      if height > 0 && rung.height > height {
        continue;
      }
      out := out + [rung];
    }
    assert ladder[..|ladder|] == ladder;
    if |out| == 0 && |ladder| > 0 {
      var smallest := ladder[|ladder| - 1];
      smallest := smallest.(width := width, height := height);
      out := out + [smallest];
    }
  }

  // ---- rounding ----

  lemma EvenMonotone(u: real, v: real)
    requires u <= v
    ensures Even(u) <= Even(v)
  {
  }

  /** A whole number of at least 2 is rounded down to an even one. */
  lemma EvenOfWhole(n: int)
    ensures n >= 2 ==> Even(n as real) == n - n % 2
    ensures n < 2 ==> Even(n as real) == 2
  {
    var h := n / 2;
    var v := n as real / 2.0 - 0.5;
    if n % 2 == 0 {
      assert v == h as real - 0.5;
      assert Ceil(v) == h;
    } else {
      assert v == h as real;
      assert Ceil(v) == h;
    }
  }

  /** From 2 on it is the nearest even number, and the lower of two that are equally near; below, it is 2. */
  lemma EvenIsNearest(v: real)
    ensures v >= 2.0 ==> v - 1.0 <= Even(v) as real < v + 1.0
    ensures v < 2.0 ==> Even(v) == 2
  {
    var half := v / 2.0 - 0.5;
    CeilIs(half);
    if v < 2.0 { assert half < 0.5; }
  }

  lemma CeilIs(x: real)
    ensures x <= Ceil(x) as real < x + 1.0
  {
  }

  // ---- scaling ----

  lemma ProductMonotone(n: real, s: real, s': real)
    requires n > 0.0 && s <= s'
    ensures n * s <= n * s'
  {
  }

  lemma QuotientMonotone(a: real, b: real, n: real)
    requires n > 0.0 && a <= b
    ensures a / n <= b / n
  {
  }

  lemma Undivided(a: real, n: real)
    requires n > 0.0
    ensures n * (a / n) == a
  {
  }

  lemma ScaledMonotone(sourceW: int, sourceH: int, s: real, s': real)
    requires sourceW > 0 && sourceH > 0 && s <= s'
    ensures NoLarger(Scaled(sourceW, sourceH, s), Scaled(sourceW, sourceH, s'))
  {
    ProductMonotone(sourceW as real, s, s');
    ProductMonotone(sourceH as real, s, s');
  }

  ghost predicate NoLarger(e: ExactSize, f: ExactSize) {
    e.width <= f.width && e.height <= f.height
  }

  lemma ScaleMeets(rungW: int, rungH: int, sourceW: int, sourceH: int)
    requires sourceW > 0 && sourceH > 0
    ensures var e := Scaled(sourceW, sourceH, Scale(rungW, rungH, sourceW, sourceH));
            && NoLarger(e, ExactSize(rungW as real, rungH as real))
            && (e.width == rungW as real || e.height == rungH as real)
  {
    var x, y := rungW as real / sourceW as real, rungH as real / sourceH as real;
    var s := Scale(rungW, rungH, sourceW, sourceH);
    ProductMonotone(sourceW as real, s, x);
    ProductMonotone(sourceH as real, s, y);
    Undivided(rungW as real, sourceW as real);
    Undivided(rungH as real, sourceH as real);
  }

  lemma ScaleMonotone(rungW: int, rungH: int, lowerW: int, lowerH: int, sourceW: int, sourceH: int)
    requires sourceW > 0 && sourceH > 0 && lowerW <= rungW && lowerH <= rungH
    ensures Scale(lowerW, lowerH, sourceW, sourceH) <= Scale(rungW, rungH, sourceW, sourceH)
  {
    QuotientMonotone(lowerW as real, rungW as real, sourceW as real);
    QuotientMonotone(lowerH as real, rungH as real, sourceH as real);
  }

  /** The scale is below 1 unless the source fits the rung. */
  lemma ScaleShrinks(rungW: int, rungH: int, sourceW: int, sourceH: int)
    requires sourceW > 0 && sourceH > 0 && !(sourceW <= rungW && sourceH <= rungH)
    ensures Scale(rungW, rungH, sourceW, sourceH) <= 1.0
  {
    if sourceW > rungW {
      QuotientMonotone(rungW as real, sourceW as real, sourceW as real);
    } else {
      QuotientMonotone(rungH as real, sourceH as real, sourceH as real);
    }
  }

  // ---- one rung ----

  lemma EvenBelow(u: real, n: int)
    requires u <= n as real && n >= 2
    ensures Even(u) <= n
  {
    EvenOfWhole(n);
    EvenMonotone(u, n as real);
  }

  lemma ExactBounds(rungW: int, rungH: int, sourceW: int, sourceH: int)
    requires sourceW > 0 && sourceH > 0
    ensures var e := Exact(rungW, rungH, sourceW, sourceH);
            && NoLarger(e, ExactSize(sourceW as real, sourceH as real))
            && NoLarger(e, ExactSize(rungW as real, rungH as real))
            && ((sourceW <= rungW && sourceH <= rungH) || e.width == rungW as real || e.height == rungH as real)
  {
    if !(sourceW <= rungW && sourceH <= rungH) {
      ScaleShrinks(rungW, rungH, sourceW, sourceH);
      ScaleMeets(rungW, rungH, sourceW, sourceH);
      ScaledMonotone(sourceW, sourceH, Scale(rungW, rungH, sourceW, sourceH), 1.0);
      assert Scaled(sourceW, sourceH, 1.0) == ExactSize(sourceW as real, sourceH as real);
    }
  }

  lemma ExactMonotone(rungW: int, rungH: int, lowerW: int, lowerH: int, sourceW: int, sourceH: int)
    requires sourceW > 0 && sourceH > 0 && lowerW <= rungW && lowerH <= rungH
    ensures NoLarger(Exact(lowerW, lowerH, sourceW, sourceH), Exact(rungW, rungH, sourceW, sourceH))
  {
    if sourceW <= rungW && sourceH <= rungH {
      ExactBounds(lowerW, lowerH, sourceW, sourceH);
    } else {
      ScaleMonotone(rungW, rungH, lowerW, lowerH, sourceW, sourceH);
      ScaledMonotone(sourceW, sourceH, Scale(lowerW, lowerH, sourceW, sourceH), Scale(rungW, rungH, sourceW, sourceH));
    }
  }

  /** A planned size never exceeds a source of at least 2x2 in either dimension. */
  lemma NeverUpscales(rungW: int, rungH: int, sourceW: int, sourceH: int)
    requires sourceW >= 2 && sourceH >= 2
    ensures var f := Fit(rungW, rungH, sourceW, sourceH); f.width <= sourceW && f.height <= sourceH
  {
    var e := Exact(rungW, rungH, sourceW, sourceH);
    ExactBounds(rungW, rungH, sourceW, sourceH);
    EvenBelow(e.width, sourceW);
    EvenBelow(e.height, sourceH);
  }

  /** ... and 2x2 is exactly what it takes: a thinner source is always upscaled, because no size is below 2. */
  lemma UpscalesIffTooThin(rungW: int, rungH: int, sourceW: int, sourceH: int)
    requires sourceW > 0 && sourceH > 0
    ensures var f := Fit(rungW, rungH, sourceW, sourceH);
            (f.width <= sourceW && f.height <= sourceH) <==> (sourceW >= 2 && sourceH >= 2)
  {
    if sourceW >= 2 && sourceH >= 2 {
      NeverUpscales(rungW, rungH, sourceW, sourceH);
    }
  }

  /** A planned size never exceeds an even rung in either dimension, and meets it in one unless the source fits inside. */
  lemma StaysInRung(rungW: int, rungH: int, sourceW: int, sourceH: int)
    requires rungW >= 2 && rungH >= 2 && rungW % 2 == 0 && rungH % 2 == 0 && sourceW >= 2 && sourceH >= 2
    ensures var f := Fit(rungW, rungH, sourceW, sourceH);
            && f.width <= rungW && f.height <= rungH
            && (!(sourceW <= rungW && sourceH <= rungH) ==> f.width == rungW || f.height == rungH)
  {
    var e := Exact(rungW, rungH, sourceW, sourceH);
    ExactBounds(rungW, rungH, sourceW, sourceH);
    EvenBelow(e.width, rungW);
    EvenBelow(e.height, rungH);
    EvenOfWhole(rungW);
    EvenOfWhole(rungH);
  }

  /** A dimension before and after rounding. */
  ghost predicate Rounds(exact: real, planned: int) {
    && planned % 2 == 0
    && (exact >= 2.0 ==> exact - 1.0 <= planned as real < exact + 1.0)
    && (exact < 2.0 ==> planned == 2)
  }

  /**
   What fit does. A source that fits the rung keeps its size but for an odd line or column. One that does not is scaled by
   the smaller of the two ratios, each dimension to within a pixel, so its shape is kept. A rung for a source of unknown
   size keeps its own.
   */
  lemma FitKeepsShape(rungW: int, rungH: int, sourceW: int, sourceH: int)
    ensures var f := Fit(rungW, rungH, sourceW, sourceH);
            if sourceW <= 0 || sourceH <= 0 then
              Rounds(rungW as real, f.width) && Rounds(rungH as real, f.height)
            else if sourceW <= rungW && sourceH <= rungH then
              Rounds(sourceW as real, f.width) && Rounds(sourceH as real, f.height)
            else
              var x, y := rungW as real / sourceW as real, rungH as real / sourceH as real;
              && Rounds(sourceW as real * (if x < y then x else y), f.width)
              && Rounds(sourceH as real * (if x < y then x else y), f.height)
  {
    FitRounds(rungW, rungH, sourceW, sourceH);
    ExactIs(rungW, rungH, sourceW, sourceH);
  }

  lemma FitRounds(rungW: int, rungH: int, sourceW: int, sourceH: int)
    ensures var e, f := Exact(rungW, rungH, sourceW, sourceH), Fit(rungW, rungH, sourceW, sourceH);
            Rounds(e.width, f.width) && Rounds(e.height, f.height)
  {
    var e := Exact(rungW, rungH, sourceW, sourceH);
    EvenIsNearest(e.width);
    EvenIsNearest(e.height);
  }

  lemma ExactIs(rungW: int, rungH: int, sourceW: int, sourceH: int)
    ensures Exact(rungW, rungH, sourceW, sourceH) ==
            if sourceW <= 0 || sourceH <= 0 then ExactSize(rungW as real, rungH as real)
            else if sourceW <= rungW && sourceH <= rungH then ExactSize(sourceW as real, sourceH as real)
            else
              var x, y := rungW as real / sourceW as real, rungH as real / sourceH as real;
              ExactSize(sourceW as real * (if x < y then x else y), sourceH as real * (if x < y then x else y))
  {
  }

  /** The size the rounding was chosen for. */
  lemma Conventional480()
    ensures Fit(854, 480, 1920, 1080) == Size(854, 480)
  {
    FitKeepsShape(854, 480, 1920, 1080);
    assert 480.0 / 1080.0 < 854.0 / 1920.0;
    assert 1920.0 * (480.0 / 1080.0) == 853.0 + 1.0 / 3.0;
    assert 1080.0 * (480.0 / 1080.0) == 480.0;
  }

  // ---- a ladder ----

  predicate StrictLadder(ladder: seq<Rung>) {
    && (forall i | 0 <= i < |ladder| ::
          ladder[i].width >= 2 && ladder[i].height >= 2 && ladder[i].width % 2 == 0 && ladder[i].height % 2 == 0)
    && (forall i, k | 0 <= i < k < |ladder| ::
          ladder[k].width < ladder[i].width && ladder[k].height < ladder[i].height)
  }

  predicate Below(a: Size, b: Size) {
    a.width <= b.width && a.height <= b.height && a != b
  }

  /** Shrinking the rung shrinks the exact size, so it never grows the rounded one. */
  lemma FitMonotone(rungW: int, rungH: int, lowerW: int, lowerH: int, sourceW: int, sourceH: int)
    requires sourceW > 0 && sourceH > 0 && lowerW <= rungW && lowerH <= rungH
    ensures var f, g := Fit(lowerW, lowerH, sourceW, sourceH), Fit(rungW, rungH, sourceW, sourceH);
            f.width <= g.width && f.height <= g.height
  {
    var e, f := Exact(lowerW, lowerH, sourceW, sourceH), Exact(rungW, rungH, sourceW, sourceH);
    ExactMonotone(rungW, rungH, lowerW, lowerH, sourceW, sourceH);
    EvenMonotone(e.width, f.width);
    EvenMonotone(e.height, f.height);
  }

  /** Of two rungs a source of sufficient height fills, the lower one gives the smaller picture. */
  lemma LowerRungIsSmaller(upper: Rung, lower: Rung, sourceW: int, sourceH: int)
    requires upper.width % 2 == 0 && upper.height % 2 == 0 && lower.width % 2 == 0 && lower.height % 2 == 0
    requires 2 <= lower.width < upper.width && 2 <= lower.height < upper.height
    requires sourceW >= 2 && upper.height <= sourceH
    ensures Below(Fit(lower.width, lower.height, sourceW, sourceH), Fit(upper.width, upper.height, sourceW, sourceH))
  {
    FitMonotone(upper.width, upper.height, lower.width, lower.height, sourceW, sourceH);
    StaysInRung(lower.width, lower.height, sourceW, sourceH);
    if sourceW <= upper.width && sourceH <= upper.height {
      EvenOfWhole(sourceH);
    } else {
      StaysInRung(upper.width, upper.height, sourceW, sourceH);
    }
  }

  lemma {:induction false} KeptExactly(ladder: seq<Rung>, height: int, r: Rung)
    requires height > 0
    ensures r in Kept(ladder, height) <==> r in ladder && r.height <= height
  {
    if ladder != [] {
      var n := |ladder| - 1;
      KeptExactly(ladder[..n], height, r);
      assert ladder == ladder[..n] + [ladder[n]];
    }
  }

  lemma {:induction false} KeptStaysStrict(ladder: seq<Rung>, height: int)
    requires StrictLadder(ladder) && height > 0
    ensures StrictLadder(Kept(ladder, height))
  {
    if ladder != [] {
      var n := |ladder| - 1;
      KeptStaysStrict(ladder[..n], height);
      var front := Kept(ladder[..n], height);
      forall i | 0 <= i < |front| ensures ladder[n].width < front[i].width && ladder[n].height < front[i].height {
        KeptExactly(ladder[..n], height, front[i]);
        var m :| 0 <= m < n && ladder[m] == front[i];
      }
    }
  }

  function Sizes(rungs: seq<Rung>, sourceW: int, sourceH: int): (s: seq<Size>)
    ensures |s| == |rungs|
  {
    seq(|rungs|, i requires 0 <= i < |rungs| => Fit(rungs[i].width, rungs[i].height, sourceW, sourceH))
  }

  /**
   The ladder's promise. At least one size is planned; every size is even, at least 2, and exceeds neither the source
   nor its rung; and going down the ladder the picture shrinks, so no two renditions are the same size.
   */
  lemma PlannedSizes(ladder: seq<Rung>, sourceW: int, sourceH: int)
    requires StrictLadder(ladder) && ladder != [] && sourceW >= 2 && sourceH >= 2
    ensures var rungs := RungsOf(ladder, sourceW, sourceH);
            var sizes := Sizes(rungs, sourceW, sourceH);
            && |sizes| >= 1
            && (forall i | 0 <= i < |sizes| ::
                  && sizes[i].width % 2 == 0 && sizes[i].height % 2 == 0
                  && 2 <= sizes[i].width <= sourceW && 2 <= sizes[i].height <= sourceH
                  && sizes[i].width <= rungs[i].width && sizes[i].height <= rungs[i].height)
            && (forall i, k | 0 <= i < k < |sizes| :: Below(sizes[k], sizes[i]))
  {
    var rungs := RungsOf(ladder, sourceW, sourceH);
    var sizes := Sizes(rungs, sourceW, sourceH);
    KeptStaysStrict(ladder, sourceH);
    forall i | 0 <= i < |sizes|
      ensures sizes[i].width <= sourceW && sizes[i].height <= sourceH
      ensures sizes[i].width <= rungs[i].width && sizes[i].height <= rungs[i].height
    {
      NeverUpscales(rungs[i].width, rungs[i].height, sourceW, sourceH);
      if Kept(ladder, sourceH) != [] {
        StaysInRung(rungs[i].width, rungs[i].height, sourceW, sourceH);
      }
    }
    forall i, k | 0 <= i < k < |sizes| ensures Below(sizes[k], sizes[i]) {
      assert rungs == Kept(ladder, sourceH);
      KeptExactly(ladder, sourceH, rungs[i]);
      LowerRungIsSmaller(rungs[i], rungs[k], sourceW, sourceH);
    }
  }

  /** Exactly the rungs no taller than the source are made, at least while there is one. */
  lemma RungsAreThoseTheSourceFills(ladder: seq<Rung>, width: int, height: int, r: Rung)
    requires height > 0 && exists i :: 0 <= i < |ladder| && ladder[i].height <= height
    ensures r in RungsOf(ladder, width, height) <==> r in ladder && r.height <= height
  {
    var i :| 0 <= i < |ladder| && ladder[i].height <= height;
    KeptExactly(ladder, height, ladder[i]);
    KeptExactly(ladder, height, r);
  }

  /**
   What rungsFor returns: of a source of unknown height the whole ladder; otherwise the rungs it fills, in the ladder's
   order; and if there is none, the last rung's quality at the source's own size.
   */
  lemma RungsAre(ladder: seq<Rung>, width: int, height: int)
    ensures height <= 0 ==> RungsOf(ladder, width, height) == ladder
    ensures height > 0 && (exists r :: r in ladder && r.height <= height) ==>
              IsSubsequence(RungsOf(ladder, width, height), ladder)
              && forall r :: r in RungsOf(ladder, width, height) <==> r in ladder && r.height <= height
    ensures ladder != [] && height > 0 && (forall r | r in ladder :: r.height > height) ==>
              var last := ladder[|ladder| - 1];
              RungsOf(ladder, width, height) == [Rung(last.name, width, height, last.crf, last.maxrateBps)]
  {
    if height <= 0 {
      KeptAll(ladder, height);
    } else {
      KeptInOrder(ladder, height);
      forall r ensures r in Kept(ladder, height) <==> r in ladder && r.height <= height {
        KeptExactly(ladder, height, r);
      }
      if Kept(ladder, height) != [] { assert Kept(ladder, height)[0] in Kept(ladder, height); }
    }
  }

  /** The same elements in the same order, some left out. */
  ghost predicate IsSubsequence(s: seq<Rung>, of_: seq<Rung>)
    decreases |of_|
  {
    if s == [] then true
    else of_ != []
         && (IsSubsequence(s, of_[..|of_| - 1])
             || (s[|s| - 1] == of_[|of_| - 1] && IsSubsequence(s[..|s| - 1], of_[..|of_| - 1])))
  }

  lemma {:induction false} KeptInOrder(ladder: seq<Rung>, height: int)
    ensures IsSubsequence(Kept(ladder, height), ladder)
  {
    if ladder != [] {
      var n := |ladder| - 1;
      KeptInOrder(ladder[..n], height);
      var front := Kept(ladder[..n], height);
      assert (front + [ladder[n]])[..|front|] == front;
    }
  }

  lemma {:induction false} KeptAll(ladder: seq<Rung>, height: int)
    requires height <= 0
    ensures Kept(ladder, height) == ladder
  {
    if ladder != [] {
      KeptAll(ladder[..|ladder| - 1], height);
    }
  }
}
