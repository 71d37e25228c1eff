/** Facts about products, quotients and remainders that the layouts of images and frames rest on. */
module Arith {

  type Byte = x: int | 0 <= x < 256

  lemma MulAtLeast(a: nat, b: nat)
    requires a >= 1
    ensures a * b >= b
  {
  }

  lemma MulMonotone(a: nat, b: nat, c: nat)
    requires a <= b
    ensures a * c <= b * c
  {
  }

  /** Quotient and remainder are determined. */
  lemma DivUnique(n: nat, d: nat, q: nat, r: nat)
    requires d > 0 && n == q * d + r && r < d
    ensures n / d == q && n % d == r
  {
    var q', r' := n / d, n % d;
    assert n == q' * d + r';
    if q' < q {
      assert (q - q') * d == r' - r;
      MulAtLeast(q - q', d);
    } else if q' > q {
      assert (q' - q) * d == r - r';
      MulAtLeast(q' - q, d);
    }
  }

  lemma MultipleMod(q: nat, d: nat)
    requires d > 0
    ensures (q * d) % d == 0
  {
    DivUnique(q * d, d, q, 0);
  }

  lemma SumMod(a: nat, b: nat, d: nat)
    requires d > 0 && a % d == 0 && b % d == 0
    ensures (a + b) % d == 0
  {
    assert a + b == (a / d + b / d) * d;
    MultipleMod(a / d + b / d, d);
  }

  // ----- Rectangles of bytes -----

  function Area(w: nat, h: nat): nat {
    h * w
  }

  /** Place of column x in row y of a plane whose rows are stride apart. */
  function Ix(stride: nat, y: nat, x: nat): nat {
    y * stride + x
  }

  lemma IxBound(w: nat, h: nat, y: nat, x: nat)
    requires y < h && x < w
    ensures Ix(w, y, x) < Area(w, h)
  {
    MulMonotone(y + 1, h, w);
  }

  lemma IxShift(W: nat, cy: nat, cx: nat, y: nat, x: nat)
    ensures Ix(W, cy, cx) + Ix(W, y, x) == Ix(W, cy + y, cx + x)
  {
    assert (cy + y) * W == cy * W + y * W;
  }

  /** Two columns of a row wider than both are apart; so are two rows. */
  lemma IxInjective(w: nat, y: nat, x: nat, y': nat, x': nat)
    requires x < w && x' < w && Ix(w, y, x) == Ix(w, y', x')
    ensures y == y' && x == x'
  {
    DivUnique(Ix(w, y, x), w, y, x);
    DivUnique(Ix(w, y', x'), w, y', x');
  }

  /** Every place in a rectangle is a row and a column of it. */
  lemma IxSplit(w: nat, h: nat, i: nat)
    requires i < Area(w, h)
    ensures w > 0 && i / w < h && i % w < w && Ix(w, i / w, i % w) == i
  {
    if i / w >= h {
      MulMonotone(h, i / w, w);
    }
  }
}
