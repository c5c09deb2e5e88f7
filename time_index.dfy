/** Click-to-step arithmetic of the time slider (`calculateIndex`,
    src/components/TimeSlider/TimeSlider.func.ts). The gauge's `left` and
    `width` come from `getBoundingClientRect`, which is not part of this
    model; they are parameters, in exact reals. */
module TimeIndex {
  function Min(a: real, b: real): real
  {
    if a <= b then a else b
  }

  function Max(a: real, b: real): real
  {
    if a >= b then a else b
  }

  /** `Math.max(0, Math.min(1, clickX / width))`: where the click falls
      along the gauge, clamped to [0, 1]. */
  function Fraction(clickX: real, width: real): (p: real)
    requires width > 0.0
    ensures 0.0 <= p <= 1.0
    ensures clickX <= 0.0 ==> p == 0.0
    ensures clickX >= width ==> p == 1.0
    ensures 0.0 <= clickX <= width ==> p * width == clickX
  {
    var q := clickX / width;
    QuotientFacts(clickX, width);
    Max(0.0, Min(1.0, q))
  }

  /** `calculateIndex(elem, clientX, dataLength)`: the step under the click,
      `Math.min(Math.floor(percentage * dataLength), dataLength - 1)`. */
  function CalculateIndex(clientX: real, left: real, width: real, dataLength: nat): (r: int)
    requires width > 0.0
    ensures dataLength >= 1 ==> 0 <= r < dataLength
    ensures dataLength == 0 ==> r == -1
    ensures dataLength >= 1 && clientX - left <= 0.0 ==> r == 0
    ensures dataLength >= 1 && clientX - left >= width ==> r == dataLength - 1
  {
    var p := Fraction(clientX - left, width);
    var cell := (p * dataLength as real).Floor;
    if cell <= dataLength - 1 then cell else dataLength - 1
  }

  /** How many cells of width `width / dataLength` lie left of `clickX`. */
  function CellPosition(clickX: real, width: real, dataLength: nat): real
    requires width > 0.0
  {
    clickX * dataLength as real / width
  }

  /** Inside the gauge, the index is that of the cell holding the click:
      measured in cell widths, the click lies between `r` and `r + 1`. */
  lemma CalculateIndexCell(clientX: real, left: real, width: real, dataLength: nat)
    requires width > 0.0 && dataLength >= 1
    requires 0.0 <= clientX - left < width
    ensures var r := CalculateIndex(clientX, left, width, dataLength);
      r as real <= CellPosition(clientX - left, width, dataLength) < r as real + 1.0
  {
    var x, n := clientX - left, dataLength as real;
    var p := Fraction(x, width);
    assert p < 1.0 by {
      if p >= 1.0 {
        MulMono(1.0, p, width);
      }
    }
    var q := p * n;
    assert q < n by { MulStrict(p, 1.0, n); }
    assert q == CellPosition(x, width, dataLength) by { DivSwap(x, n, width); }
    FloorBelow(q, dataLength);
    assert CalculateIndex(clientX, left, width, dataLength) == q.Floor;
  }

  /** The floor of a value below a positive count `k` is below `k`. */
  lemma FloorBelow(q: real, k: nat)
    requires q < k as real
    ensures q.Floor <= k - 1
    ensures q.Floor as real <= q < q.Floor as real + 1.0
  {
  }

  /** A click further right never selects an earlier step. */
  lemma CalculateIndexMonotone(x1: real, x2: real, left: real, width: real, dataLength: nat)
    requires width > 0.0
    requires x1 <= x2
    ensures CalculateIndex(x1, left, width, dataLength) <= CalculateIndex(x2, left, width, dataLength)
  {
    DivMono(x1 - left, x2 - left, width);
    var p1, p2 := Fraction(x1 - left, width), Fraction(x2 - left, width);
    assert p1 <= p2;
    MulMono(p1, p2, dataLength as real);
    FloorMono(p1 * dataLength as real, p2 * dataLength as real);
  }

  lemma FloorMono(a: real, b: real)
    requires a <= b
    ensures a.Floor <= b.Floor
  {
    assert a.Floor as real <= a;
    assert b < b.Floor as real + 1.0;
  }

  lemma MulMono(a: real, b: real, c: real)
    requires a <= b && c >= 0.0
    ensures a * c <= b * c
  {
    assert b * c - a * c == (b - a) * c;
  }

  lemma MulStrict(a: real, b: real, c: real)
    requires a < b && c > 0.0
    ensures a * c < b * c
  {
    assert b * c - a * c == (b - a) * c;
  }

  lemma DivSwap(x: real, n: real, w: real)
    requires w > 0.0
    ensures (x / w) * n == x * n / w
  {
  }

  /** Where `x / w` lies, for a positive `w`. */
  lemma QuotientFacts(x: real, w: real)
    requires w > 0.0
    ensures (x / w) * w == x
    ensures x >= w ==> x / w >= 1.0
    ensures x <= 0.0 ==> x / w <= 0.0
    ensures 0.0 <= x <= w ==> 0.0 <= x / w <= 1.0
  {
    assert w / w == 1.0;
    assert 0.0 / w == 0.0;
    if x >= w {
      DivMono(w, x, w);
    }
    if x <= 0.0 {
      DivMono(x, 0.0, w);
    }
    if 0.0 <= x <= w {
      DivMono(0.0, x, w);
      DivMono(x, w, w);
    }
  }

  lemma DivMono(a: real, b: real, w: real)
    requires a <= b && w > 0.0
    ensures a / w <= b / w
  {
    assert b / w - a / w == (b - a) / w;
  }
}
