/** The height field of the terrain generator (Terrain.js): the bounds-checked
    accessors get_height / set_height and the diamond-square synthesis, as
    functions of a flat height buffer of Cells(n) entries, where n is the
    terrain's `max` (= div). Random draws come from a stream `rand`, and a
    Field carries the index of the next unused draw. */
module Heights {
  import opened Grid

  /** (x, y) lies in [0, n] x [0, n], the range the accessors accept. */
  predicate InGrid(n: nat, x: int, y: int)
  {
    0 <= x <= n && 0 <= y <= n
  }

  /** (x, y) is one of the four corners the generator seeds. */
  predicate IsCorner(n: nat, x: int, y: int)
  {
    (x == 0 || x == n) && (y == 0 || y == n)
  }

  /** The value both accessors return for a point off the grid. */
  const Sentinel: real := -1.0

  /** get_height: the height stored for column x, row y, or the sentinel off the grid. */
  function HeightAt(h: seq<real>, n: nat, x: int, y: int): real
    requires |h| == Cells(n)
  {
    if InGrid(n, x, y) then
      h[VertexId(n, y, x)]
    else
      Sentinel
  }

  /** The buffer after set_height(x, y, v): entry (x, y) replaced, or nothing changed off the grid. */
  function WithHeight(h: seq<real>, n: nat, x: int, y: int, v: real): (r: seq<real>)
    requires |h| == Cells(n)
    ensures |r| == |h|
  {
    if InGrid(n, x, y) then
      h[VertexId(n, y, x) := v]
    else
      h
  }

  /** set_height then get_height: a write is read back at its own point, leaves every
      other point as it was, and a write off the grid changes nothing. */
  lemma WithHeightThenHeightAt(h: seq<real>, n: nat, x: int, y: int, v: real, a: int, b: int)
    requires |h| == Cells(n)
    ensures !InGrid(n, x, y) ==> WithHeight(h, n, x, y, v) == h
    ensures HeightAt(WithHeight(h, n, x, y, v), n, a, b)
         == if InGrid(n, x, y) && a == x && b == y then v else HeightAt(h, n, a, b)
  {
    if InGrid(n, x, y) && InGrid(n, a, b) && VertexId(n, b, a) == VertexId(n, y, x) {
      VertexIdInjective(n, b, a, y, x);
    }
  }

  /** The random offset of one step: a draw r scaled to [-scale, scale). */
  function Offset(r: real, scale: real): (o: real)
    ensures 0.0 <= r < 1.0 && scale > 0.0 ==> -scale <= o < scale
  {
    r * scale * 2.0 - scale
  }

  /** diamond(x, y, half, offset): (x, y) gets the mean of its four diagonal
      neighbours at distance half, plus the offset. */
  function DiamondStep(h: seq<real>, n: nat, x: int, y: int, half: int, offset: real): (r: seq<real>)
    requires |h| == Cells(n)
    ensures |r| == |h|
  {
    var a := HeightAt(h, n, x - half, y - half);
    var b := HeightAt(h, n, x + half, y - half);
    var c := HeightAt(h, n, x + half, y + half);
    var d := HeightAt(h, n, x - half, y + half);
    WithHeight(h, n, x, y, (a + b + c + d) / 4.0 + offset)
  }

  /** DiamondStep in terms of the four corner heights read before the write. */
  lemma DiamondStepOf(h: seq<real>, n: nat, x: int, y: int, half: int, offset: real, a: real, b: real, c: real, d: real)
    requires |h| == Cells(n)
    requires a == HeightAt(h, n, x - half, y - half) && b == HeightAt(h, n, x + half, y - half)
    requires c == HeightAt(h, n, x + half, y + half) && d == HeightAt(h, n, x - half, y + half)
    ensures DiamondStep(h, n, x, y, half, offset) == WithHeight(h, n, x, y, (a + b + c + d) / 4.0 + offset)
  {
  }

  /** square(x, y, half, offset): (x, y) gets the mean of its four axis neighbours at
      distance half, plus the offset; a neighbour off the grid contributes the sentinel. */
  function SquareStep(h: seq<real>, n: nat, x: int, y: int, half: int, offset: real): (r: seq<real>)
    requires |h| == Cells(n)
    ensures |r| == |h|
  {
    var a := HeightAt(h, n, x, y - half);
    var b := HeightAt(h, n, x + half, y);
    var c := HeightAt(h, n, x, y + half);
    var d := HeightAt(h, n, x - half, y);
    WithHeight(h, n, x, y, (a + b + c + d) / 4.0 + offset)
  }

  /** SquareStep in terms of the four neighbour heights read before the write. */
  lemma SquareStepOf(h: seq<real>, n: nat, x: int, y: int, half: int, offset: real, a: real, b: real, c: real, d: real)
    requires |h| == Cells(n)
    requires a == HeightAt(h, n, x, y - half) && b == HeightAt(h, n, x + half, y)
    requires c == HeightAt(h, n, x, y + half) && d == HeightAt(h, n, x - half, y)
    ensures SquareStep(h, n, x, y, half, offset) == WithHeight(h, n, x, y, (a + b + c + d) / 4.0 + offset)
  {
  }

  /** The heights together with the index of the next random draw to use. */
  datatype Field = Field(heights: seq<real>, draws: nat)

  /** The inner diamond loop of diam_sq for row y, from column x on in steps of s. */
  function DiamondRow(f: Field, n: nat, s: nat, y: int, x: int, scale: real, rand: nat -> real): (r: Field)
    requires |f.heights| == Cells(n) && s >= 1
    ensures |r.heights| == |f.heights|
    decreases n - x
  {
    if x >= n then f
    else
      var g := Field(DiamondStep(f.heights, n, x, y, s / 2, Offset(rand(f.draws), scale)), f.draws + 1);
      DiamondRow(g, n, s, y, x + s, scale, rand)
  }

  /** The diamond loops of diam_sq, from row y on in steps of s. */
  function DiamondPass(f: Field, n: nat, s: nat, y: int, scale: real, rand: nat -> real): (r: Field)
    requires |f.heights| == Cells(n) && s >= 1
    ensures |r.heights| == |f.heights|
    decreases n - y
  {
    if y >= n then f
    else DiamondPass(DiamondRow(f, n, s, y, s / 2, scale, rand), n, s, y + s, scale, rand)
  }

  /** The inner square loop of diam_sq for row y, from column x on in steps of s. */
  function SquareRow(f: Field, n: nat, s: nat, y: int, x: int, scale: real, rand: nat -> real): (r: Field)
    requires |f.heights| == Cells(n) && s >= 1
    ensures |r.heights| == |f.heights|
    decreases n + 1 - x
  {
    if x > n then f
    else
      var g := Field(SquareStep(f.heights, n, x, y, s / 2, Offset(rand(f.draws), scale)), f.draws + 1);
      SquareRow(g, n, s, y, x + s, scale, rand)
  }

  /** The square loops of diam_sq, from row y on in steps of s/2, each row starting
      at column (y + s/2) % s. */
  function SquarePass(f: Field, n: nat, s: nat, y: int, scale: real, rand: nat -> real): (r: Field)
    requires |f.heights| == Cells(n) && s >= 2
    ensures |r.heights| == |f.heights|
    decreases n + 1 - y
  {
    if y > n then f
    else SquarePass(SquareRow(f, n, s, y, (y + s / 2) % s, scale, rand), n, s, y + s / 2, scale, rand)
  }

  /** One diamond step of a row, with the offset of the next draw, then the rest of the row. */
  lemma DiamondRowStep(f: Field, n: nat, s: nat, y: int, x: int, scale: real, rand: nat -> real,
                       offset: real, h: seq<real>)
    requires |f.heights| == Cells(n) && s >= 1 && x < n
    requires offset == Offset(rand(f.draws), scale) && h == DiamondStep(f.heights, n, x, y, s / 2, offset)
    ensures DiamondRow(f, n, s, y, x, scale, rand) == DiamondRow(Field(h, f.draws + 1), n, s, y, x + s, scale, rand)
  {
  }

  /** One square step of a row, with the offset of the next draw, then the rest of the row. */
  lemma SquareRowStep(f: Field, n: nat, s: nat, y: int, x: int, scale: real, rand: nat -> real,
                      offset: real, h: seq<real>)
    requires |f.heights| == Cells(n) && s >= 1 && x <= n
    requires offset == Offset(rand(f.draws), scale) && h == SquareStep(f.heights, n, x, y, s / 2, offset)
    ensures SquareRow(f, n, s, y, x, scale, rand) == SquareRow(Field(h, f.draws + 1), n, s, y, x + s, scale, rand)
  {
  }

  /** One row of the diamond pass, then the rest of the pass. */
  lemma DiamondPassStep(f: Field, n: nat, s: nat, y: int, scale: real, rand: nat -> real, g: Field)
    requires |f.heights| == Cells(n) && s >= 1 && y < n
    requires g == DiamondRow(f, n, s, y, s / 2, scale, rand)
    ensures DiamondPass(f, n, s, y, scale, rand) == DiamondPass(g, n, s, y + s, scale, rand)
  {
  }

  /** One row of the square pass, then the rest of the pass. */
  lemma SquarePassStep(f: Field, n: nat, s: nat, y: int, scale: real, rand: nat -> real, g: Field)
    requires |f.heights| == Cells(n) && s >= 2 && y <= n
    requires g == SquareRow(f, n, s, y, (y + s / 2) % s, scale, rand)
    ensures SquarePass(f, n, s, y, scale, rand) == SquarePass(g, n, s, y + s / 2, scale, rand)
  {
  }

  /** diam_sq(s, rough): both passes at block size s, then the same at s/2, until s/2 < 1. */
  function DiamondSquare(f: Field, n: nat, s: nat, rough: real, rand: nat -> real): (r: Field)
    requires |f.heights| == Cells(n) && IsPow2(s)
    ensures |r.heights| == |f.heights|
    decreases s
  {
    var half := s / 2;
    var scale := rough * (s as real);
    if half < 1 then f
    else
      var d := DiamondPass(f, n, s, half, scale, rand);
      DiamondSquare(SquarePass(d, n, s, 0, scale, rand), n, half, rough, rand)
  }

  /** The first four set_height calls of generateTerrain: three corners get n times a
      draw, in the order (0,0), (n,0), (0,n), and (n,n) gets 0. */
  function SeedCorners(h: seq<real>, n: nat, rand: nat -> real): (f: Field)
    requires |h| == Cells(n)
    ensures |f.heights| == |h|
  {
    var h1 := WithHeight(h, n, 0, 0, (n as real) * rand(0));
    var h2 := WithHeight(h1, n, n, 0, (n as real) * rand(1));
    var h3 := WithHeight(h2, n, n, n, 0.0);
    var h4 := WithHeight(h3, n, 0, n, (n as real) * rand(2));
    Field(h4, 3)
  }

  /** The seeding as four successive writes of the given seed values. */
  lemma SeedCornersWrites(h: seq<real>, n: nat, rand: nat -> real, a: real, b: real, c: real)
    requires |h| == Cells(n)
    requires a == (n as real) * rand(0) && b == (n as real) * rand(1) && c == (n as real) * rand(2)
    ensures SeedCorners(h, n, rand)
         == Field(WithHeight(WithHeight(WithHeight(WithHeight(h, n, 0, 0, a), n, n, 0, b), n, n, n, 0.0), n, 0, n, c), 3)
  {
  }

  /** The heights generateTerrain leaves: seeded corners, then diam_sq(n, rough). */
  function Synthesize(h: seq<real>, n: nat, rough: real, rand: nat -> real): (f: Field)
    requires |h| == Cells(n) && IsPow2(n)
    ensures |f.heights| == |h|
  {
    DiamondSquare(SeedCorners(h, n, rand), n, n, rough, rand)
  }

  // ---- arithmetic of the loop positions ----

  lemma ModOfSmall(h: int, s: int)
    requires 0 <= h < s
    ensures h % s == h
  {
    DivModUnique(0, h, s);
  }

  lemma ModAddPeriod(x: int, s: int)
    requires s > 0
    ensures (x + s) % s == x % s
  {
    var q, m := x / s, x % s;
    assert x + s == (q + 1) * s + m;
    DivModUnique(q + 1, m, s);
  }

  /** On a row that is a multiple of s, the square loop starts at column s/2. */
  lemma SquarePhaseOnLatticeRow(y: int, s: int)
    requires s >= 2 && y % s == 0
    ensures (y + s / 2) % s == s / 2
  {
    var q := y / s;
    assert y + s / 2 == q * s + s / 2;
    DivModUnique(q, s / 2, s);
  }

  /** A multiple of an even s is a multiple of s/2. */
  lemma LatticeRefines(a: int, s: int)
    requires s >= 2 && s % 2 == 0 && a % s == 0
    ensures a % (s / 2) == 0
  {
    var q := a / s;
    assert a == (2 * q) * (s / 2) + 0;
    DivModUnique(2 * q, 0, s / 2);
  }

  /** One coordinate of a diamond centre: congruent to s/2 modulo s and below n, with
      n a multiple of s. It is neither 0 nor n, and both neighbours at distance s/2 lie in [0, n]. */
  lemma CentreCoordinate(n: nat, s: int, x: int)
    requires s >= 2 && n % s == 0
    requires 0 <= x < n && x % s == s / 2
    ensures 0 <= x - s / 2 && x + s / 2 <= n && x != 0 && x != n
  {
    var q, m := x / s, n / s;
    assert x == q * s + s / 2;
    assert n == m * s;
    if q < 0 {
      MulMono(q, -1, s);
      assert false;
    }
    MulMono(0, q, s);
    if q >= m {
      MulMono(m, q, s);
      assert false;
    }
    MulMono(q + 1, m, s);
    assert n % s == 0;
  }

  /** Every point the diamond loops of diam_sq(s) visit (both coordinates congruent to s/2
      modulo s and below n) lies on the grid, is not a corner, and its four diagonal
      neighbours lie on the grid too: the diamond step never averages the sentinel. */
  lemma DiamondTargetInGrid(n: nat, s: int, x: int, y: int)
    requires s >= 2 && n % s == 0
    requires 0 <= x < n && 0 <= y < n && x % s == s / 2 && y % s == s / 2
    ensures InGrid(n, x, y) && !IsCorner(n, x, y)
    ensures InGrid(n, x - s / 2, y - s / 2) && InGrid(n, x + s / 2, y - s / 2)
    ensures InGrid(n, x + s / 2, y + s / 2) && InGrid(n, x - s / 2, y + s / 2)
  {
    CentreCoordinate(n, s, x);
    CentreCoordinate(n, s, y);
  }

  /** Every point the square loops of diam_sq(s) visit (in [0, n]^2, column congruent to
      (y + s/2) % s modulo s) lies on the grid and is not a corner. */
  lemma SquareTargetInGrid(n: nat, s: int, x: int, y: int)
    requires s >= 2 && n % s == 0
    requires 0 <= x <= n && 0 <= y <= n && x % s == (y + s / 2) % s
    ensures InGrid(n, x, y) && !IsCorner(n, x, y)
  {
    if y % s == 0 {
      SquarePhaseOnLatticeRow(y, s);
      ModOfSmall(0, s);
    } else {
      ModOfSmall(0, s);
    }
  }

  // ---- which points each loop writes ----

  /** A diamond row writes only points of row y whose column is congruent to x modulo s. */
  lemma {:induction false} DiamondRowWrites(f: Field, n: nat, s: nat, y: int, x: int, scale: real,
                                           rand: nat -> real, a: int, b: int)
    requires |f.heights| == Cells(n) && s >= 1
    requires b != y || a % s != x % s
    ensures HeightAt(DiamondRow(f, n, s, y, x, scale, rand).heights, n, a, b) == HeightAt(f.heights, n, a, b)
    decreases n - x
  {
    if x < n {
      var off := Offset(rand(f.draws), scale);
      var g := Field(DiamondStep(f.heights, n, x, y, s / 2, off), f.draws + 1);
      var avg := (HeightAt(f.heights, n, x - s / 2, y - s / 2) + HeightAt(f.heights, n, x + s / 2, y - s / 2)
                + HeightAt(f.heights, n, x + s / 2, y + s / 2) + HeightAt(f.heights, n, x - s / 2, y + s / 2)) / 4.0;
      WithHeightThenHeightAt(f.heights, n, x, y, avg + off, a, b);
      ModAddPeriod(x, s);
      DiamondRowWrites(g, n, s, y, x + s, scale, rand, a, b);
    }
  }

  /** A square row writes only points of row y whose column is congruent to x modulo s. */
  lemma {:induction false} SquareRowWrites(f: Field, n: nat, s: nat, y: int, x: int, scale: real,
                                          rand: nat -> real, a: int, b: int)
    requires |f.heights| == Cells(n) && s >= 1
    requires b != y || a % s != x % s
    ensures HeightAt(SquareRow(f, n, s, y, x, scale, rand).heights, n, a, b) == HeightAt(f.heights, n, a, b)
    decreases n + 1 - x
  {
    if x <= n {
      var off := Offset(rand(f.draws), scale);
      var g := Field(SquareStep(f.heights, n, x, y, s / 2, off), f.draws + 1);
      var avg := (HeightAt(f.heights, n, x, y - s / 2) + HeightAt(f.heights, n, x + s / 2, y)
                + HeightAt(f.heights, n, x, y + s / 2) + HeightAt(f.heights, n, x - s / 2, y)) / 4.0;
      WithHeightThenHeightAt(f.heights, n, x, y, avg + off, a, b);
      ModAddPeriod(x, s);
      SquareRowWrites(g, n, s, y, x + s, scale, rand, a, b);
    }
  }

  /** The diamond pass of block size s leaves every point whose column is a multiple of s. */
  lemma {:induction false} DiamondPassKeepsLattice(f: Field, n: nat, s: nat, y: int, scale: real,
                                                  rand: nat -> real, a: int, b: int)
    requires |f.heights| == Cells(n) && s >= 2
    requires a % s == 0
    ensures HeightAt(DiamondPass(f, n, s, y, scale, rand).heights, n, a, b) == HeightAt(f.heights, n, a, b)
    decreases n - y
  {
    if y < n {
      ModOfSmall(s / 2, s);
      DiamondRowWrites(f, n, s, y, s / 2, scale, rand, a, b);
      DiamondPassKeepsLattice(DiamondRow(f, n, s, y, s / 2, scale, rand), n, s, y + s, scale, rand, a, b);
    }
  }

  /** The square pass of block size s leaves every point whose coordinates are both multiples of s. */
  lemma {:induction false} SquarePassKeepsLattice(f: Field, n: nat, s: nat, y: int, scale: real,
                                                 rand: nat -> real, a: int, b: int)
    requires |f.heights| == Cells(n) && s >= 2
    requires a % s == 0 && b % s == 0
    ensures HeightAt(SquarePass(f, n, s, y, scale, rand).heights, n, a, b) == HeightAt(f.heights, n, a, b)
    decreases n + 1 - y
  {
    if y <= n {
      var x0 := (y + s / 2) % s;
      if b == y {
        SquarePhaseOnLatticeRow(y, s);
        ModOfSmall(s / 2, s);
      }
      SquareRowWrites(f, n, s, y, x0, scale, rand, a, b);
      SquarePassKeepsLattice(SquareRow(f, n, s, y, x0, scale, rand), n, s, y + s / 2, scale, rand, a, b);
    }
  }

  /** diam_sq(s) never changes a point whose coordinates are both multiples of s:
      every later block size divides s, and each pass writes only off that lattice. */
  lemma {:induction false} DiamondSquareKeepsLattice(f: Field, n: nat, s: nat, rough: real,
                                                    rand: nat -> real, a: int, b: int)
    requires |f.heights| == Cells(n) && IsPow2(s)
    requires a % s == 0 && b % s == 0
    ensures HeightAt(DiamondSquare(f, n, s, rough, rand).heights, n, a, b) == HeightAt(f.heights, n, a, b)
    decreases s
  {
    if s / 2 >= 1 {
      var scale := rough * (s as real);
      var d := DiamondPass(f, n, s, s / 2, scale, rand);
      DiamondPassKeepsLattice(f, n, s, s / 2, scale, rand, a, b);
      SquarePassKeepsLattice(d, n, s, 0, scale, rand, a, b);
      LatticeRefines(a, s);
      LatticeRefines(b, s);
      DiamondSquareKeepsLattice(SquarePass(d, n, s, 0, scale, rand), n, s / 2, rough, rand, a, b);
    }
  }

  /** After seeding, each corner holds its seed: n times draws 0, 1 and 2 at (0,0), (n,0)
      and (0,n), and 0 at (n,n). */
  lemma SeedCornersAt(h: seq<real>, n: nat, rand: nat -> real)
    requires |h| == Cells(n) && n >= 1
    ensures var s := SeedCorners(h, n, rand).heights;
      && HeightAt(s, n, 0, 0) == (n as real) * rand(0)
      && HeightAt(s, n, n, 0) == (n as real) * rand(1)
      && HeightAt(s, n, n, n) == 0.0
      && HeightAt(s, n, 0, n) == (n as real) * rand(2)
  {
    var a, b, c := (n as real) * rand(0), (n as real) * rand(1), (n as real) * rand(2);
    SeedCornersWrites(h, n, rand, a, b, c);
    CornerWritesAt(h, n, a, b, c);
  }

  /** Four writes to the four distinct corners of a grid with n >= 1 are each read back. */
  lemma CornerWritesAt(h: seq<real>, n: nat, a: real, b: real, c: real)
    requires |h| == Cells(n) && n >= 1
    ensures var s := WithHeight(WithHeight(WithHeight(WithHeight(h, n, 0, 0, a), n, n, 0, b), n, n, n, 0.0), n, 0, n, c);
      && HeightAt(s, n, 0, 0) == a && HeightAt(s, n, n, 0) == b
      && HeightAt(s, n, n, n) == 0.0 && HeightAt(s, n, 0, n) == c
  {
    var h1 := WithHeight(h, n, 0, 0, a);
    var h2 := WithHeight(h1, n, n, 0, b);
    var h3 := WithHeight(h2, n, n, n, 0.0);
    var cx := [0, n, n, 0];
    var cy := [0, 0, n, n];
    for k := 0 to 4 {
      WithHeightThenHeightAt(h, n, 0, 0, a, cx[k], cy[k]);
      WithHeightThenHeightAt(h1, n, n, 0, b, cx[k], cy[k]);
      WithHeightThenHeightAt(h2, n, n, n, 0.0, cx[k], cy[k]);
      WithHeightThenHeightAt(h3, n, 0, n, c, cx[k], cy[k]);
    }
  }

  /** diam_sq(n) started on the whole grid leaves the four corners as they were. */
  lemma DiamondSquareKeepsCorner(f: Field, n: nat, rough: real, rand: nat -> real, a: int, b: int)
    requires |f.heights| == Cells(n) && IsPow2(n) && IsCorner(n, a, b)
    ensures HeightAt(DiamondSquare(f, n, n, rough, rand).heights, n, a, b) == HeightAt(f.heights, n, a, b)
  {
    DivModUnique(0, 0, n);
    DivModUnique(1, 0, n);
    DiamondSquareKeepsLattice(f, n, n, rough, rand, a, b);
  }

  /** The corners keep their seeds through the whole synthesis: neither pass ever
      targets a corner, at any block size. */
  lemma CornersKeepSeeds(h: seq<real>, n: nat, rough: real, rand: nat -> real)
    requires |h| == Cells(n) && IsPow2(n)
    ensures var r := Synthesize(h, n, rough, rand).heights;
      && HeightAt(r, n, 0, 0) == (n as real) * rand(0)
      && HeightAt(r, n, n, 0) == (n as real) * rand(1)
      && HeightAt(r, n, n, n) == 0.0
      && HeightAt(r, n, 0, n) == (n as real) * rand(2)
  {
    var f := SeedCorners(h, n, rand);
    var r := Synthesize(h, n, rough, rand).heights;
    assert r == DiamondSquare(f, n, n, rough, rand).heights;
    SeedCornersAt(h, n, rand);
    DiamondSquareKeepsCorner(f, n, rough, rand, 0, 0);
    DiamondSquareKeepsCorner(f, n, rough, rand, n, 0);
    DiamondSquareKeepsCorner(f, n, rough, rand, n, n);
    DiamondSquareKeepsCorner(f, n, rough, rand, 0, n);
  }
  /** On the bottom edge the square step averages in the sentinel for its neighbour
      below the grid, exactly as set_height receives it: the -1 is not skipped. */
  lemma SquareOnBottomEdge(h: seq<real>, n: nat, x: int, half: int, offset: real)
    requires |h| == Cells(n) && 0 <= x <= n && half >= 1
    ensures HeightAt(SquareStep(h, n, x, 0, half, offset), n, x, 0)
         == (Sentinel + HeightAt(h, n, x + half, 0) + HeightAt(h, n, x, half) + HeightAt(h, n, x - half, 0)) / 4.0 + offset
  {
    var v := (HeightAt(h, n, x, -half) + HeightAt(h, n, x + half, 0)
            + HeightAt(h, n, x, half) + HeightAt(h, n, x - half, 0)) / 4.0 + offset;
    WithHeightThenHeightAt(h, n, x, 0, v, x, 0);
  }

  // ---- the passes on direct buffer access ----

  /** The diamond step at a centre whose four diagonal neighbours lie on the grid,
      with plain buffer reads and a plain write: the mean of four stored heights. */
  function DirectDiamondStep(h: seq<real>, n: nat, x: int, y: int, half: int, offset: real): (r: seq<real>)
    requires |h| == Cells(n) && half >= 0
    requires 0 <= x - half && x + half <= n && 0 <= y - half && y + half <= n
    ensures |r| == |h|
  {
    h[VertexId(n, y, x) := (h[VertexId(n, y - half, x - half)] + h[VertexId(n, y - half, x + half)]
                          + h[VertexId(n, y + half, x + half)] + h[VertexId(n, y + half, x - half)]) / 4.0 + offset]
  }

  /** Where all four diagonal neighbours are on the grid, diamond's bounds-checked
      reads and write are plain buffer accesses: no -1 enters the mean and the write
      is not rejected. */
  lemma DiamondStepOnGrid(h: seq<real>, n: nat, x: int, y: int, half: int, offset: real)
    requires |h| == Cells(n) && half >= 0
    requires 0 <= x - half && x + half <= n && 0 <= y - half && y + half <= n
    ensures DiamondStep(h, n, x, y, half, offset) == DirectDiamondStep(h, n, x, y, half, offset)
  {
  }

  /** The square step at a point on the grid with a plain write: the four neighbours
      are still read through get_height, so one off the grid gives -1. */
  function DirectSquareStep(h: seq<real>, n: nat, x: int, y: int, half: int, offset: real): (r: seq<real>)
    requires |h| == Cells(n) && InGrid(n, x, y)
    ensures |r| == |h|
  {
    h[VertexId(n, y, x) := (HeightAt(h, n, x, y - half) + HeightAt(h, n, x + half, y)
                          + HeightAt(h, n, x, y + half) + HeightAt(h, n, x - half, y)) / 4.0 + offset]
  }

  /** At a point on the grid the square step's write is not rejected. */
  lemma SquareStepOnGrid(h: seq<real>, n: nat, x: int, y: int, half: int, offset: real)
    requires |h| == Cells(n) && InGrid(n, x, y)
    ensures SquareStep(h, n, x, y, half, offset) == DirectSquareStep(h, n, x, y, half, offset)
  {
  }

  /** A diamond row on direct accesses, over the centres the diamond loops of block
      size s visit (both coordinates congruent to s/2 modulo s, n a multiple of s). */
  function DirectDiamondRow(f: Field, n: nat, s: nat, y: int, x: int, scale: real, rand: nat -> real): (r: Field)
    requires |f.heights| == Cells(n) && s >= 2 && n % s == 0
    requires 0 <= y < n && y % s == s / 2 && 0 <= x && x % s == s / 2
    ensures |r.heights| == |f.heights|
    decreases n - x
  {
    if x >= n then f
    else
      DiamondTargetInGrid(n, s, x, y);
      ModAddPeriod(x, s);
      var g := Field(DirectDiamondStep(f.heights, n, x, y, s / 2, Offset(rand(f.draws), scale)), f.draws + 1);
      DirectDiamondRow(g, n, s, y, x + s, scale, rand)
  }

  /** The diamond loops of block size s on direct accesses, rows from y in steps of s. */
  function DirectDiamondPass(f: Field, n: nat, s: nat, y: int, scale: real, rand: nat -> real): (r: Field)
    requires |f.heights| == Cells(n) && s >= 2 && n % s == 0
    requires 0 <= y && y % s == s / 2
    ensures |r.heights| == |f.heights|
    decreases n - y
  {
    if y >= n then f
    else
      ModOfSmall(s / 2, s);
      ModAddPeriod(y, s);
      DirectDiamondPass(DirectDiamondRow(f, n, s, y, s / 2, scale, rand), n, s, y + s, scale, rand)
  }

  /** A square row with direct writes, over the points the square loops visit. */
  function DirectSquareRow(f: Field, n: nat, s: nat, y: int, x: int, scale: real, rand: nat -> real): (r: Field)
    requires |f.heights| == Cells(n) && s >= 2 && n % s == 0
    requires 0 <= y <= n && 0 <= x && x % s == (y + s / 2) % s
    ensures |r.heights| == |f.heights|
    decreases n + 1 - x
  {
    if x > n then f
    else
      SquareTargetInGrid(n, s, x, y);
      ModAddPeriod(x, s);
      var g := Field(DirectSquareStep(f.heights, n, x, y, s / 2, Offset(rand(f.draws), scale)), f.draws + 1);
      DirectSquareRow(g, n, s, y, x + s, scale, rand)
  }

  /** The square loops of block size s with direct writes, rows from y in steps of s/2. */
  function DirectSquarePass(f: Field, n: nat, s: nat, y: int, scale: real, rand: nat -> real): (r: Field)
    requires |f.heights| == Cells(n) && s >= 2 && n % s == 0 && 0 <= y
    ensures |r.heights| == |f.heights|
    decreases n + 1 - y
  {
    if y > n then f
    else
      ModOfSmall((y + s / 2) % s, s);
      DirectSquarePass(DirectSquareRow(f, n, s, y, (y + s / 2) % s, scale, rand), n, s, y + s / 2, scale, rand)
  }

  /** diam_sq(s) on direct accesses, for a grid side n that is a multiple of s. */
  function DirectDiamondSquare(f: Field, n: nat, s: nat, rough: real, rand: nat -> real): (r: Field)
    requires |f.heights| == Cells(n) && IsPow2(s) && n % s == 0
    ensures |r.heights| == |f.heights|
    decreases s
  {
    var half := s / 2;
    var scale := rough * (s as real);
    if half < 1 then f
    else
      ModOfSmall(half, s);
      LatticeRefines(n, s);
      var d := DirectDiamondPass(f, n, s, half, scale, rand);
      DirectDiamondSquare(DirectSquarePass(d, n, s, 0, scale, rand), n, half, rough, rand)
  }

  /** Every diamond step of a row of the diamond loops reads four heights on the grid
      and writes on the grid. */
  lemma {:induction false} DiamondRowOnGrid(f: Field, n: nat, s: nat, y: int, x: int, scale: real, rand: nat -> real)
    requires |f.heights| == Cells(n) && s >= 2 && n % s == 0
    requires 0 <= y < n && y % s == s / 2 && 0 <= x && x % s == s / 2
    ensures DiamondRow(f, n, s, y, x, scale, rand) == DirectDiamondRow(f, n, s, y, x, scale, rand)
    decreases n - x
  {
    if x < n {
      DiamondTargetInGrid(n, s, x, y);
      ModAddPeriod(x, s);
      var off := Offset(rand(f.draws), scale);
      DiamondStepOnGrid(f.heights, n, x, y, s / 2, off);
      DiamondRowOnGrid(Field(DiamondStep(f.heights, n, x, y, s / 2, off), f.draws + 1), n, s, y, x + s, scale, rand);
    }
  }

  /** The whole diamond pass of block size s reads and writes only on the grid. */
  lemma {:induction false} DiamondPassOnGrid(f: Field, n: nat, s: nat, y: int, scale: real, rand: nat -> real)
    requires |f.heights| == Cells(n) && s >= 2 && n % s == 0
    requires 0 <= y && y % s == s / 2
    ensures DiamondPass(f, n, s, y, scale, rand) == DirectDiamondPass(f, n, s, y, scale, rand)
    decreases n - y
  {
    if y < n {
      ModOfSmall(s / 2, s);
      ModAddPeriod(y, s);
      DiamondRowOnGrid(f, n, s, y, s / 2, scale, rand);
      DiamondPassOnGrid(DiamondRow(f, n, s, y, s / 2, scale, rand), n, s, y + s, scale, rand);
    }
  }

  /** Every square step of a row of the square loops writes on the grid. */
  lemma {:induction false} SquareRowOnGrid(f: Field, n: nat, s: nat, y: int, x: int, scale: real, rand: nat -> real)
    requires |f.heights| == Cells(n) && s >= 2 && n % s == 0
    requires 0 <= y <= n && 0 <= x && x % s == (y + s / 2) % s
    ensures SquareRow(f, n, s, y, x, scale, rand) == DirectSquareRow(f, n, s, y, x, scale, rand)
    decreases n + 1 - x
  {
    if x <= n {
      SquareTargetInGrid(n, s, x, y);
      ModAddPeriod(x, s);
      var off := Offset(rand(f.draws), scale);
      SquareStepOnGrid(f.heights, n, x, y, s / 2, off);
      SquareRowOnGrid(Field(SquareStep(f.heights, n, x, y, s / 2, off), f.draws + 1), n, s, y, x + s, scale, rand);
    }
  }

  /** The whole square pass of block size s writes only on the grid. */
  lemma {:induction false} SquarePassOnGrid(f: Field, n: nat, s: nat, y: int, scale: real, rand: nat -> real)
    requires |f.heights| == Cells(n) && s >= 2 && n % s == 0 && 0 <= y
    ensures SquarePass(f, n, s, y, scale, rand) == DirectSquarePass(f, n, s, y, scale, rand)
    decreases n + 1 - y
  {
    if y <= n {
      ModOfSmall((y + s / 2) % s, s);
      SquareRowOnGrid(f, n, s, y, (y + s / 2) % s, scale, rand);
      SquarePassOnGrid(SquareRow(f, n, s, y, (y + s / 2) % s, scale, rand), n, s, y + s / 2, scale, rand);
    }
  }

  /** diam_sq(s), for a grid side that s divides, never averages the sentinel in a
      diamond step and never has a write rejected, at any block size of the recursion. */
  lemma {:induction false} DiamondSquareOnGrid(f: Field, n: nat, s: nat, rough: real, rand: nat -> real)
    requires |f.heights| == Cells(n) && IsPow2(s) && n % s == 0
    ensures DiamondSquare(f, n, s, rough, rand) == DirectDiamondSquare(f, n, s, rough, rand)
    decreases s
  {
    if s / 2 >= 1 {
      var scale := rough * (s as real);
      ModOfSmall(s / 2, s);
      LatticeRefines(n, s);
      DiamondPassOnGrid(f, n, s, s / 2, scale, rand);
      var d := DiamondPass(f, n, s, s / 2, scale, rand);
      SquarePassOnGrid(d, n, s, 0, scale, rand);
      DiamondSquareOnGrid(SquarePass(d, n, s, 0, scale, rand), n, s / 2, rough, rand);
    }
  }

  /** The synthesis generateTerrain runs, diam_sq(max) after the seeding, is the one on
      direct accesses: every diamond step at every level averages four stored heights,
      and no set_height of either pass returns -1. */
  lemma SynthesizeOnGrid(h: seq<real>, n: nat, rough: real, rand: nat -> real)
    requires |h| == Cells(n) && IsPow2(n)
    ensures Synthesize(h, n, rough, rand) == DirectDiamondSquare(SeedCorners(h, n, rand), n, n, rough, rand)
  {
    DivModUnique(1, 0, n);
    DiamondSquareOnGrid(SeedCorners(h, n, rand), n, n, rough, rand);
  }
}
