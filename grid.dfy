/** Index arithmetic of the terrain's square grid of side n+1, stored row by row
    in flat buffers: grid point (column x, row y) is entry y*(n+1)+x. */
module Grid {

  /** 2^k: the number of divisions per side, Math.pow(2, div) for a whole exponent. */
  function Pow2(k: nat): (r: nat)
    ensures r >= 1
  {
    if k == 0 then 1 else 2 * Pow2(k - 1)
  }

  /** s is 1, 2, 4, 8, ...: the block sizes diamond-square visits. */
  predicate IsPow2(s: nat)
  {
    s == 1 || (s >= 2 && s % 2 == 0 && IsPow2(s / 2))
  }

  lemma {:induction false} Pow2IsPow2(k: nat)
    ensures IsPow2(Pow2(k))
  {
    if k > 0 {
      Pow2IsPow2(k - 1);
      assert Pow2(k) == 2 * Pow2(k - 1);
      assert Pow2(k) / 2 == Pow2(k - 1);
    }
  }

  /** Number of grid points of a grid with n divisions per side. */
  function Cells(n: nat): nat
  {
    (n + 1) * (n + 1)
  }

  lemma MulMono(a: int, b: int, w: int)
    requires a <= b && w >= 0
    ensures a * w <= b * w
  {
    assert b * w - a * w == (b - a) * w;
  }

  lemma RowMajorBound(n: nat, i: int, j: int)
    ensures 0 <= i <= n && 0 <= j <= n + 1 ==> 0 <= i * (n + 1) + j <= (n + 1) * (n + 1)
    ensures 0 <= i <= n && 0 <= j <= n ==> i * (n + 1) + j < (n + 1) * (n + 1)
  {
    if 0 <= i <= n && 0 <= j <= n + 1 {
      MulMono(0, i, n + 1);
      MulMono(i, n, n + 1);
    }
  }

  /** Flat id of the point in row i, column j (also the height index of column j, row i);
      the points of the grid get the ids 0 .. Cells(n)-1. */
  function VertexId(n: nat, i: int, j: int): (k: int)
    ensures 0 <= i <= n && 0 <= j <= n ==> 0 <= k < Cells(n)
  {
    RowMajorBound(n, i, j);
    i * (n + 1) + j
  }

  /** Walking a row one column past its end lands on the start of the next row, so the
      row-major prefixes grow from 0 to Cells(n). */
  lemma VertexIdPrefix(n: nat, i: int, j: int)
    requires 0 <= i <= n && 0 <= j <= n + 1
    ensures 0 <= VertexId(n, i, j) <= Cells(n)
    ensures VertexId(n, i, n + 1) == VertexId(n, i + 1, 0)
  {
    RowMajorBound(n, i, j);
  }

  /** The row after the last one starts at Cells(n): every id has been walked. */
  lemma VertexIdEnd(n: nat)
    ensures VertexId(n, n + 1, 0) == Cells(n)
  {
  }

  lemma CellMajorBound(n: nat, i: int, j: int)
    ensures 0 <= i < n && 0 <= j <= n ==> 0 <= i * n + j <= n * n
  {
    if 0 <= i < n && 0 <= j <= n {
      MulMono(0, i, n);
      MulMono(i, n - 1, n);
    }
  }

  /** Flat id of cell (row i, column j) of the n*n cells, row by row; the cells of
      rows 0 .. n-1 (with one column past the end) get ids within 0 .. n*n. */
  function CellId(n: nat, i: int, j: int): (c: int)
    ensures 0 <= i < n && 0 <= j <= n ==> 0 <= c <= n * n
  {
    CellMajorBound(n, i, j);
    i * n + j
  }

  /** Division by w undoes q*w + r when 0 <= r < w. */
  lemma DivModUnique(q: int, r: int, w: int)
    requires w > 0 && 0 <= r < w
    ensures (q * w + r) / w == q && (q * w + r) % w == r
  {
    var x := q * w + r;
    var d, m := x / w, x % w;
    assert d * w + m == x;
    if d > q {
      MulMono(q + 1, d, w);
      assert false;
    } else if d < q {
      MulMono(d + 1, q, w);
      assert false;
    }
  }

  /** Distinct points of the grid have distinct ids. */
  lemma VertexIdInjective(n: nat, i: int, j: int, i2: int, j2: int)
    requires 0 <= j <= n && 0 <= j2 <= n
    requires VertexId(n, i, j) == VertexId(n, i2, j2)
    ensures i == i2 && j == j2
  {
    DivModUnique(i, j, n + 1);
    DivModUnique(i2, j2, n + 1);
  }

  lemma VertexIdInjectiveAll(n: nat)
    ensures forall i, j, i2, j2 ::
              0 <= j <= n && 0 <= j2 <= n && VertexId(n, i, j) == VertexId(n, i2, j2) ==> i == i2 && j == j2
  {
    forall i, j, i2, j2 | 0 <= j <= n && 0 <= j2 <= n && VertexId(n, i, j) == VertexId(n, i2, j2)
      ensures i == i2 && j == j2
    {
      VertexIdInjective(n, i, j, i2, j2);
    }
  }

  /** Every id below Cells(n) is the id of exactly the point (k/(n+1), k%(n+1)). */
  lemma VertexIdSplit(n: nat, k: int)
    requires 0 <= k < Cells(n)
    ensures 0 <= k / (n + 1) <= n && 0 <= k % (n + 1) <= n
    ensures VertexId(n, k / (n + 1), k % (n + 1)) == k
  {
    var i := k / (n + 1);
    if i > n {
      MulMono(n + 1, i, n + 1);
      assert false;
    }
  }

  /** Appending chunk w, when w is what s holds right after its first m entries, to a
      prefix of s extends the prefix: the step of every loop below that pushes a
      buffer's entries in order. */
  lemma AppendSlice<T>(front: seq<T>, s: seq<T>, m: int, w: seq<T>)
    requires 0 <= m && m + |w| <= |s| && s[m..m + |w|] == w
    ensures front + s[..m] + w == front + s[..m + |w|]
  {
    assert s[..m + |w|] == s[..m] + w;
  }
}
