/** Multiples of a step, as starts of blocks. */
module Alignment {
  /** p is the start of a block when the sequence is cut into blocks of length step. */
  ghost predicate Aligned(p: nat, step: nat)
    requires step > 0
    decreases p
  {
    p == 0 || (p >= step && Aligned(p - step, step))
  }

  /** Two neighbouring starts are step apart. */
  lemma {:induction false} AlignedGap(p: nat, q: nat, step: nat)
    requires step > 0 && Aligned(p, step) && Aligned(q, step) && p < q
    ensures p + step <= q
    decreases p
  {
    if p > 0 { AlignedGap(p - step, q - step, step); }
  }

  lemma {:induction false} AlignedDouble(p: nat, step: nat)
    requires step > 0 && Aligned(p, 2 * step)
    ensures Aligned(p, step) && Aligned(p + step, step)
    decreases p
  {
    if p > 0 { AlignedDouble(p - 2 * step, step); }
  }

  lemma {:induction false} AlignedMod(p: nat, step: nat)
    requires step > 0
    ensures Aligned(p, step) <==> p % step == 0
    decreases p
  {
    if p >= step {
      AlignedMod(p - step, step);
      ModStep(p - step, step);
    } else {
      ModSmall(p, step);
    }
  }

  lemma ModSmall(p: nat, step: nat)
    requires p < step
    ensures p % step == p
  {
  }

  lemma ModStep(p: nat, step: nat)
    requires step > 0
    ensures (p + step) % step == p % step
  {
    var q, r, q', r' := p / step, p % step, (p + step) / step, (p + step) % step;
    assert p == step * q + r && p + step == step * q' + r';
    assert step * (q' - q - 1) == r - r' by { assert step * (q' - q - 1) == step * q' - step * q - step; }
    MultipleSmall(q' - q - 1, step, r - r');
  }

  /** A multiple of step that is smaller than step in absolute value is 0. */
  lemma MultipleSmall(k: int, step: nat, x: int)
    requires step * k == x && -(step as int) < x < step
    ensures x == 0
  {
    if k >= 1 { MulAtLeast(step, k); }
    if k <= -1 { MulAtLeast(step, -k); }
  }

  lemma MulAtLeast(step: nat, k: int)
    requires k >= 1
    ensures step * k >= step
  {
  }
}
