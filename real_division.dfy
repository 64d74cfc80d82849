/** Facts about division of reals that the evaluator, the exporter and the
    preview rely on; Dafny's solver needs them spelled out. */
module RealDivision {

  lemma DivAtLeastOne(x: real, d: real)
    requires d != 0.0
    ensures 0.0 < d <= x ==> x / d >= 1.0
  {
    var q := x / d;
    assert q * d == x;
  }

  lemma DivNonNegative(x: real, d: real)
    requires d != 0.0
    ensures 0.0 < d && 0.0 <= x ==> x / d >= 0.0
  {
    var q := x / d;
    assert q * d == x;
  }

  lemma DivBelowOne(x: real, d: real)
    requires 0.0 <= x < d
    ensures 0.0 <= x / d < 1.0
  {
    DivNonNegative(x, d);
    var q := x / d;
    assert (1.0 - q) * d == d - x > 0.0;
  }

  lemma DivLessIff(a: real, fps: real, d: real)
    requires fps > 0.0
    ensures a / fps < d <==> a < d * fps
  {
    var q := a / fps;
    assert q * fps == a;
    assert (d - q) * fps == d * fps - a;
  }

  lemma DivAtMostOne(x: real, d: real)
    requires 0.0 <= x <= d && d > 0.0
    ensures 0.0 <= x / d <= 1.0
  {
    DivNonNegative(x, d);
    var q := x / d;
    assert (1.0 - q) * d == d - x >= 0.0;
  }
}
