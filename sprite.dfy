/** The sprite sheet's grid: `min(total, 10)` thumbnails per row, as many rows
    as needed, every frame the size of the first one. Only the integer
    geometry handed to the image library is modelled. */
module Sprite {
  import Options

  datatype Layout = Layout(cols: nat, rows: nat, frameWidth: nat, frameHeight: nat)
  {
    function Width(): nat { frameWidth * cols }
    function Height(): nat { frameHeight * rows }
  }

  /** `ceil(n / d)`. */
  function CeilDiv(n: nat, d: nat): (q: nat)
    requires d >= 1
    ensures q * d >= n
    ensures n == 0 ==> q == 0
    ensures n > 0 ==> (q - 1) * d < n
  {
    var q, r := (n + d - 1) / d, (n + d - 1) % d;
    assert n + d - 1 == q * d + r && r < d;
    assert (q - 1) * d == q * d - d;
    q
  }

  /** The layout for `total` frames of `frameWidth` x `frameHeight` pixels. */
  function MakeLayout(total: nat, frameWidth: nat, frameHeight: nat): (l: Layout)
    requires total >= 1
    ensures 1 <= l.cols <= Options.SpriteWidth && l.cols <= total
    ensures l.cols == total || l.cols == Options.SpriteWidth
    ensures l.rows >= 1
    ensures l.rows * l.cols >= total
    ensures (l.rows - 1) * l.cols < total
    ensures l.frameWidth == frameWidth && l.frameHeight == frameHeight
  {
    var cols := if total < Options.SpriteWidth then total else Options.SpriteWidth;
    Layout(cols, CeilDiv(total, cols), frameWidth, frameHeight)
  }

  /** The top-left corner of cell `i`, row-major. */
  function CellX(l: Layout, i: nat): nat
    requires l.cols >= 1
  {
    (i % l.cols) * l.frameWidth
  }

  function CellY(l: Layout, i: nat): nat
    requires l.cols >= 1
  {
    (i / l.cols) * l.frameHeight
  }

  /** Every frame's cell lies inside the canvas. */
  lemma CellInsideCanvas(total: nat, frameWidth: nat, frameHeight: nat, i: nat)
    requires 1 <= total && i < total
    ensures var l := MakeLayout(total, frameWidth, frameHeight);
      CellX(l, i) + l.frameWidth <= l.Width() && CellY(l, i) + l.frameHeight <= l.Height()
  {
    CellInsideGrid(MakeLayout(total, frameWidth, frameHeight), total, i);
  }

  lemma CellInsideGrid(l: Layout, total: nat, i: nat)
    requires l.cols >= 1 && l.rows * l.cols >= total && i < total
    ensures CellX(l, i) + l.frameWidth <= l.Width() && CellY(l, i) + l.frameHeight <= l.Height()
  {
    var c, r := i % l.cols, i / l.cols;
    MulMonotone(c + 1, l.cols, l.frameWidth);
    Distribute(c, l.frameWidth);
    QuotientBelow(i, l.cols, l.rows);
    MulMonotone(r + 1, l.rows, l.frameHeight);
    Distribute(r, l.frameHeight);
  }

  lemma Distribute(a: nat, k: nat)
    ensures (a + 1) * k == a * k + k
  {
  }

  lemma QuotientBelow(i: nat, d: nat, n: nat)
    requires d >= 1 && i < n * d
    ensures i / d < n
  {
    var q := i / d;
    assert q * d <= i;
    if q >= n {
      MulMonotone(n, q, d);
    }
  }

  /** Two different frames get cells that do not overlap (for frames of
      non-zero size): different columns are apart horizontally, otherwise
      the rows differ and the cells are apart vertically. */
  lemma CellsDisjoint(l: Layout, i: nat, j: nat)
    requires l.cols >= 1 && l.frameWidth >= 1 && l.frameHeight >= 1
    requires i != j
    ensures CellX(l, i) + l.frameWidth <= CellX(l, j) || CellX(l, j) + l.frameWidth <= CellX(l, i)
         || CellY(l, i) + l.frameHeight <= CellY(l, j) || CellY(l, j) + l.frameHeight <= CellY(l, i)
  {
    if i % l.cols != j % l.cols {
      SlotsApart(i % l.cols, j % l.cols, l.frameWidth);
    } else {
      SameSlotSameIndex(i, j, l.cols);
      SlotsApart(i / l.cols, j / l.cols, l.frameHeight);
    }
  }

  /** Different slots of size k start at least k apart. */
  lemma SlotsApart(a: nat, b: nat, k: nat)
    requires a != b
    ensures a * k + k <= b * k || b * k + k <= a * k
  {
    if a < b {
      MulMonotone(a + 1, b, k);
      Distribute(a, k);
    } else {
      MulMonotone(b + 1, a, k);
      Distribute(b, k);
    }
  }

  /** Quotient and remainder determine the index. */
  lemma SameSlotSameIndex(i: nat, j: nat, d: nat)
    requires d >= 1 && i % d == j % d && i != j
    ensures i / d != j / d
  {
    assert i == (i / d) * d + i % d;
    assert j == (j / d) * d + j % d;
  }

  lemma MulMonotone(a: nat, b: nat, k: nat)
    requires a <= b
    ensures a * k <= b * k && k * a <= k * b
  {
  }
}
