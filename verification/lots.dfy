/** `floorToStep` (app.js:87-90): a lot size rounded down to the broker's lot step,
    in exact arithmetic. */
module Lots {

  /** k lot steps. */
  function Steps(k: int, step: real): real {
    k as real * step
  }

  /** x is a whole number of lot steps. */
  ghost predicate OnStep(x: real, step: real) {
    exists k: int :: x == Steps(k, step)
  }

  /** floor(v / step) * step, where `Math.floor` becomes `.Floor`. */
  function FloorToStep(v: real, step: real): (r: real)
    requires step > 0.0
    ensures OnStep(r, step)
    ensures r <= v < r + step
  {
    var k := (v / step).Floor;
    FloorBounds(v, step, k);
    Steps(k, step)
  }

  /** k = floor(v / step) places k * step within one step below v. */
  lemma FloorBounds(v: real, step: real, k: int)
    requires step > 0.0 && k == (v / step).Floor
    ensures k as real * step <= v < k as real * step + step
  {
    var f := v / step;
    assert k as real <= f < k as real + 1.0;
    assert f * step == v;
    MulMono(k as real, f, step);
    var k1 := k as real + 1.0;
    MulStrict(f, k1, step);
    assert f * step < k1 * step;
    assert v < k1 * step;
    assert (k as real + 1.0) * step == k as real * step + step;
  }

  lemma MulMono(a: real, b: real, c: real)
    requires a <= b && c >= 0.0
    ensures a * c <= b * c
  {
  }

  lemma MulStrict(a: real, b: real, c: real)
    requires a < b && c > 0.0
    ensures a * c < b * c
  {
  }

  /** Two multiples of the step that lie less than one step apart are equal. */
  lemma OnStepUnique(x: real, y: real, step: real)
    requires step > 0.0 && OnStep(x, step) && OnStep(y, step)
    requires x <= y < x + step
    ensures x == y
  {
    var i: int :| x == Steps(i, step);
    var j: int :| y == Steps(j, step);
    if i < j {
      MulMono((i + 1) as real, j as real, step);
      assert false;
    } else if j < i {
      MulStrict(j as real, i as real, step);
      assert false;
    }
  }

  /** The rounded lot is the greatest multiple of the step not above v. */
  lemma FloorToStepGreatest(v: real, step: real, x: real)
    requires step > 0.0 && OnStep(x, step) && x <= v
    ensures x <= FloorToStep(v, step)
  {
    var r := FloorToStep(v, step);
    if r < x {
      OnStepUnique(r, x, step);
    }
  }

  /** A whole number of steps is left as it is. */
  lemma FloorToStepOnStep(x: real, step: real)
    requires step > 0.0 && OnStep(x, step)
    ensures FloorToStep(x, step) == x
  {
    FloorToStepGreatest(x, step, x);
  }

  /** Rounding twice is rounding once. */
  lemma FloorToStepIdempotent(v: real, step: real)
    requires step > 0.0
    ensures FloorToStep(FloorToStep(v, step), step) == FloorToStep(v, step)
  {
    FloorToStepOnStep(FloorToStep(v, step), step);
  }

  /** Rounding down keeps the order of its arguments. */
  lemma FloorToStepMonotonic(v: real, w: real, step: real)
    requires step > 0.0 && v <= w
    ensures FloorToStep(v, step) <= FloorToStep(w, step)
  {
    FloorToStepGreatest(w, step, FloorToStep(v, step));
  }

  /** A whole number of steps times a count is a whole number of steps. */
  lemma OnStepScale(x: real, step: real, n: nat)
    requires OnStep(x, step)
    ensures OnStep(x * n as real, step)
  {
    var k: int :| x == Steps(k, step);
    assert x * n as real == Steps(k * n, step);
  }
  /** A multiple of the step reaches v's rounding exactly when it reaches v itself. */
  lemma FloorToStepAtLeast(v: real, step: real, x: real)
    requires step > 0.0 && OnStep(x, step)
    ensures x <= FloorToStep(v, step) <==> x <= v
  {
    if x <= v {
      FloorToStepGreatest(v, step, x);
    }
  }

  /** A positive whole number of steps is at least one step. */
  lemma OnStepPositive(x: real, step: real)
    requires step > 0.0 && OnStep(x, step) && x > 0.0
    ensures x >= step
  {
    var k: int :| x == Steps(k, step);
    assert x == k as real * step;
    if k <= 0 {
      MulMono(k as real, 0.0, step);
      assert false;
    }
    MulMono(1.0, k as real, step);
    assert 1.0 * step <= k as real * step;
  }

  /** n steps are a whole number of steps. */
  lemma StepsOnStep(step: real, n: nat)
    ensures OnStep(step * n as real, step)
  {
    assert step * n as real == Steps(n, step);
  }
}
