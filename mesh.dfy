/** The terrain's mesh buffers (Terrain.js) as functions: the vertex grid and the
    triangle list generateTriangles pushes, the wireframe edge list of
    generateLines, vertex access by (row, column), the height copy into vertex z,
    and the height-band colouring of apply_colors. Buffers are flat: vertex k
    occupies entries 3k, 3k+1, 3k+2 of the vertex buffer. */
module Mesh {
  import opened Grid

  /** A three-component vector, as the source's [x, y, z] arrays. */
  type Vec3 = s: seq<real> | |s| == 3 witness [0.0, 0.0, 0.0]

  /** Position generateTriangles gives vertex (row i, column j): x steps by
      (maxX-minX)/n along a row, y by (maxY-minY)/n down the rows, z is 0. */
  function GridPoint(n: nat, minX: real, maxX: real, minY: real, maxY: real, i: int, j: int): Vec3
    requires n >= 1
  {
    [(j as real) * ((maxX - minX) / (n as real)) + minX, minY + (i as real) * ((maxY - minY) / (n as real)), 0.0]
  }

  /** The vertex buffer generateTriangles pushes: every grid point, row by row. */
  function GridVertices(n: nat, minX: real, maxX: real, minY: real, maxY: real): (v: seq<real>)
    requires n >= 1
    ensures |v| == 3 * Cells(n)
  {
    seq(3 * Cells(n), p requires 0 <= p < 3 * Cells(n) =>
      GridPoint(n, minX, maxX, minY, maxY, (p / 3) / (n + 1), (p / 3) % (n + 1))[p % 3])
  }

  /** Vertex (row i, column j) of the generated grid sits at entries 3*(i*(n+1)+j) .. +2
      and holds exactly GridPoint(i, j). */
  lemma GridVerticesAt(n: nat, minX: real, maxX: real, minY: real, maxY: real, i: int, j: int)
    requires n >= 1 && 0 <= i <= n && 0 <= j <= n
    ensures 0 <= 3 * VertexId(n, i, j) && 3 * VertexId(n, i, j) + 3 <= |GridVertices(n, minX, maxX, minY, maxY)|
    ensures GridVertices(n, minX, maxX, minY, maxY)[3 * VertexId(n, i, j) .. 3 * VertexId(n, i, j) + 3]
         == GridPoint(n, minX, maxX, minY, maxY, i, j)
  {
    var k := VertexId(n, i, j);
    var v := GridVertices(n, minX, maxX, minY, maxY);
    DivModUnique(i, j, n + 1);
    forall c | 0 <= c < 3
      ensures v[3 * k + c] == GridPoint(n, minX, maxX, minY, maxY, i, j)[c]
    {
      assert (3 * k + c) / 3 == k && (3 * k + c) % 3 == c;
    }
  }

  /** The point computed from precomputed steps xStep, yStep is GridPoint. */
  lemma GridPointSteps(n: nat, minX: real, maxX: real, minY: real, maxY: real, xStep: real, yStep: real, i: int, j: int)
    requires n >= 1
    requires xStep == (maxX - minX) / (n as real) && yStep == (maxY - minY) / (n as real)
    ensures GridPoint(n, minX, maxX, minY, maxY, i, j) == [(j as real) * xStep + minX, minY + (i as real) * yStep, 0.0]
  {
    var g := GridPoint(n, minX, maxX, minY, maxY, i, j);
    assert g[0] == (j as real) * xStep + minX;
    assert g[1] == minY + (i as real) * yStep;
  }

  /** One step of generateTriangles' vertex loops: pushing vertex (i, j), computed with
      the steps xStep = (maxX-minX)/n and yStep = (maxY-minY)/n, after the vertices
      before it extends the pushed prefix of the grid by one vertex. */
  lemma GridVerticesStep(front: seq<real>, n: nat, minX: real, maxX: real, minY: real, maxY: real,
                         xStep: real, yStep: real, i: int, j: int, k: int)
    requires n >= 1 && 0 <= i <= n && 0 <= j <= n && k == i * (n + 1) + j
    requires xStep == (maxX - minX) / (n as real) && yStep == (maxY - minY) / (n as real)
    ensures 0 <= 3 * k && 3 * k + 3 <= |GridVertices(n, minX, maxX, minY, maxY)|
    ensures front + GridVertices(n, minX, maxX, minY, maxY)[..3 * k]
              + [(j as real) * xStep + minX, minY + (i as real) * yStep, 0.0]
         == front + GridVertices(n, minX, maxX, minY, maxY)[..3 * k + 3]
  {
    GridVerticesAt(n, minX, maxX, minY, maxY, i, j);
    GridPointSteps(n, minX, maxX, minY, maxY, xStep, yStep, i, j);
    AppendSlice(front, GridVertices(n, minX, maxX, minY, maxY), 3 * k,
                [(j as real) * xStep + minX, minY + (i as real) * yStep, 0.0]);
  }

  /** The two triangles generateTriangles pushes for cell (row i, column j), from the
      cell's lower-left vertex id: (vid, vid+n+1, vid+n+2) then (vid, vid+1, vid+n+2). */
  function CellTriangles(n: nat, i: int, j: int): seq<int>
  {
    var vid := VertexId(n, i, j);
    [vid, vid + n + 1, vid + n + 2, vid, vid + 1, vid + n + 2]
  }

  /** The face buffer generateTriangles pushes: two triangles per cell, cells row by row. */
  function GridFaces(n: nat): (f: seq<int>)
    requires n >= 1
    ensures |f| == 6 * (n * n) && |f| % 3 == 0
  {
    seq(6 * (n * n), p requires 0 <= p < 6 * (n * n) => CellTriangles(n, (p / 6) / n, (p / 6) % n)[p % 6])
  }

  /** Cell (row i, column j), the c-th cell row by row, owns face entries 6c .. 6c+5,
      which hold its two triangles. */
  lemma GridFacesAt(n: nat, i: int, j: int, c: int)
    requires n >= 1 && 0 <= i < n && 0 <= j < n && c == i * n + j
    ensures 0 <= 6 * c && 6 * c + 6 <= |GridFaces(n)|
    ensures GridFaces(n)[6 * c .. 6 * c + 6] == CellTriangles(n, i, j)
  {
    var f := GridFaces(n);
    CellMajorBound(n, i, j + 1);
    DivModUnique(i, j, n);
    forall m | 0 <= m < 6
      ensures f[6 * c + m] == CellTriangles(n, i, j)[m]
    {
      assert (6 * c + m) / 6 == c && (6 * c + m) % 6 == m;
    }
  }

  /** One step of generateTriangles' face loops: pushing the two triangles of cell
      (i, j), whose lower-left vertex is vid, after the cells before it extends the
      pushed prefix of the faces by one cell. */
  lemma GridFacesStep(front: seq<int>, n: nat, i: int, j: int, c: int, vid: int)
    requires n >= 1 && 0 <= i < n && 0 <= j < n && c == i * n + j && vid == i * (n + 1) + j
    ensures 0 <= 6 * c && 6 * c + 6 <= |GridFaces(n)|
    ensures front + GridFaces(n)[..6 * c] + [vid, vid + n + 1, vid + n + 2, vid, vid + 1, vid + n + 2]
         == front + GridFaces(n)[..6 * c + 6]
  {
    GridFacesAt(n, i, j, c);
    var w := [vid, vid + n + 1, vid + n + 2, vid, vid + 1, vid + n + 2];
    assert CellTriangles(n, i, j) == w;
    AppendSlice(front, GridFaces(n), 6 * c, w);
  }

  /** Every index in the face buffer names a vertex of the grid: 0 <= index < (n+1)^2. */
  lemma GridFacesInRange(n: nat)
    requires n >= 1
    ensures forall p :: 0 <= p < |GridFaces(n)| ==> 0 <= GridFaces(n)[p] < Cells(n)
  {
    var f := GridFaces(n);
    forall p | 0 <= p < |f|
      ensures 0 <= f[p] < Cells(n)
    {
      var c := p / 6;
      var i, j := c / n, c % n;
      assert c < n * n;
      if i >= n {
        MulMono(n, i, n);
        assert false;
      }
      MulMono(0, i, n + 1);
      MulMono(i, n - 1, n + 1);
      assert (n + 1) * (n + 1) == (n - 1) * (n + 1) + 2 * (n + 1);
      assert f[p] == CellTriangles(n, i, j)[p % 6];
    }
  }

  /** Which of a triangle's three indices generateLines pushes m-th: a,b, b,c, c,a. */
  function EdgeCorner(m: int): int
  {
    if m == 0 || m == 5 then 0 else if m <= 2 then 1 else 2
  }

  /** The edge buffer generateLines pushes for a face buffer: for each triangle (a,b,c)
      the pairs (a,b), (b,c), (c,a). */
  function EdgeList(fs: seq<int>): (e: seq<int>)
    requires |fs| % 3 == 0
    ensures |e| == 2 * |fs|
  {
    seq(2 * |fs|, p requires 0 <= p < 2 * |fs| => EdgeSourceInRange(|fs|, p); fs[3 * (p / 6) + EdgeCorner(p % 6)])
  }

  /** Entry p of the edge list of m face entries copies face entry 3*(p/6) + EdgeCorner(p%6). */
  lemma EdgeSourceInRange(m: int, p: int)
    requires m % 3 == 0 && 0 <= p < 2 * m
    ensures 0 <= 3 * (p / 6) + EdgeCorner(p % 6) < m
  {
    var t := p / 6;
    assert 6 * t <= p < 6 * t + 6;
    assert 3 * t + 3 <= m;
  }

  /** Triangle t contributes exactly a,b, b,c, c,a, at entries 6t .. 6t+5. */
  lemma EdgeListOfTriangle(fs: seq<int>, t: int)
    requires |fs| % 3 == 0 && 0 <= t && 3 * t + 3 <= |fs|
    ensures 6 * t + 6 <= |EdgeList(fs)|
    ensures EdgeList(fs)[6 * t .. 6 * t + 6] == [fs[3 * t], fs[3 * t + 1], fs[3 * t + 1], fs[3 * t + 2], fs[3 * t + 2], fs[3 * t]]
  {
    var e := EdgeList(fs);
    var w := [fs[3 * t], fs[3 * t + 1], fs[3 * t + 1], fs[3 * t + 2], fs[3 * t + 2], fs[3 * t]];
    forall m | 0 <= m < 6
      ensures e[6 * t + m] == w[m]
    {
      assert (6 * t + m) / 6 == t && (6 * t + m) % 6 == m;
      assert w[m] == fs[3 * t + EdgeCorner(m)];
    }
    assert e[6 * t .. 6 * t + 6] == w;
  }

  /** Edges name only vertices that the faces name: an index bound on the faces holds for the edges. */
  lemma EdgeListInRange(fs: seq<int>, bound: int)
    requires |fs| % 3 == 0
    requires forall q :: 0 <= q < |fs| ==> 0 <= fs[q] < bound
    ensures forall p :: 0 <= p < |EdgeList(fs)| ==> 0 <= EdgeList(fs)[p] < bound
  {
    var e := EdgeList(fs);
    forall p | 0 <= p < |e|
      ensures 0 <= e[p] < bound
    {
      assert e[p] == fs[3 * (p / 6) + EdgeCorner(p % 6)];
    }
  }

  /** getVertex(v, i, j): the coordinates stored for vertex (row i, column j). */
  function ReadVertex(vb: seq<real>, n: nat, i: int, j: int): Vec3
    requires 0 <= VertexId(n, i, j) && 3 * VertexId(n, i, j) + 3 <= |vb|
  {
    vb[3 * VertexId(n, i, j) .. 3 * VertexId(n, i, j) + 3]
  }

  /** setVertex(v, i, j): the buffer with vertex (row i, column j) replaced by v. */
  function WriteVertex(vb: seq<real>, n: nat, i: int, j: int, v: Vec3): (r: seq<real>)
    requires 0 <= VertexId(n, i, j) && 3 * VertexId(n, i, j) + 3 <= |vb|
    ensures |r| == |vb|
  {
    var k := 3 * VertexId(n, i, j);
    vb[k := v[0]][k + 1 := v[1]][k + 2 := v[2]]
  }

  /** setVertex then getVertex: the written vertex reads back as v, every other vertex
      of the grid reads as before. */
  lemma WriteThenReadVertex(vb: seq<real>, n: nat, i: int, j: int, v: Vec3, i2: int, j2: int)
    requires |vb| == 3 * Cells(n)
    requires 0 <= i <= n && 0 <= j <= n && 0 <= i2 <= n && 0 <= j2 <= n
    ensures 0 <= VertexId(n, i, j) && 3 * VertexId(n, i, j) + 3 <= |vb|
    ensures 0 <= VertexId(n, i2, j2) && 3 * VertexId(n, i2, j2) + 3 <= |vb|
    ensures ReadVertex(WriteVertex(vb, n, i, j, v), n, i2, j2)
         == if i2 == i && j2 == j then v else ReadVertex(vb, n, i2, j2)
  {
    if VertexId(n, i, j) == VertexId(n, i2, j2) {
      VertexIdInjective(n, i, j, i2, j2);
    }
  }

  /** setVertex writes entries 3*(i*(n+1)+j) .. +2 and no other. */
  lemma WriteVertexFrame(vb: seq<real>, n: nat, i: int, j: int, v: Vec3, p: int)
    requires 0 <= VertexId(n, i, j) && 3 * VertexId(n, i, j) + 3 <= |vb| && 0 <= p < |vb|
    ensures WriteVertex(vb, n, i, j, v)[p]
         == if 3 * VertexId(n, i, j) <= p < 3 * VertexId(n, i, j) + 3 then v[p - 3 * VertexId(n, i, j)] else vb[p]
  {
  }

  /** The z copy_heights stores for a height hv: 0 for a negative height,
      scaling * hv / n otherwise. */
  function HeightToZ(hv: real, n: nat, scaling: real): real
    requires n >= 1
  {
    if hv < 0.0 then 0.0 else scaling * (hv / (n as real))
  }

  /** The vertex buffer after copy_heights: vertex k's z becomes HeightToZ of height k,
      all x and y entries stay. */
  function CopiedHeights(vb: seq<real>, h: seq<real>, n: nat, scaling: real): (r: seq<real>)
    requires n >= 1 && |vb| == 3 * |h|
    ensures |r| == |vb|
  {
    seq(|vb|, p requires 0 <= p < |vb| => if p % 3 == 2 then HeightToZ(h[p / 3], n, scaling) else vb[p])
  }

  /** Vertex k after the copy: x and y as before, z from height k. */
  lemma CopiedHeightsAt(vb: seq<real>, h: seq<real>, n: nat, scaling: real, k: int)
    requires n >= 1 && |vb| == 3 * |h| && 0 <= k < |h|
    ensures CopiedHeights(vb, h, n, scaling)[3 * k] == vb[3 * k]
    ensures CopiedHeights(vb, h, n, scaling)[3 * k + 1] == vb[3 * k + 1]
    ensures CopiedHeights(vb, h, n, scaling)[3 * k + 2] == HeightToZ(h[k], n, scaling)
  {
    assert (3 * k + 2) / 3 == k;
  }

  /** copy_heights walks the grid column by column, top to bottom; vertex k has been
      visited by the time the walk reaches (column x, row y) when its column is before
      x, or it is in column x above row y. */
  predicate Visited(n: nat, k: int, x: int, y: int)
  {
    k % (n + 1) < x || (k % (n + 1) == x && k / (n + 1) < y)
  }

  /** The vertex buffer when copy_heights' walk has reached (column x, row y): the
      visited vertices have their z copied, everything else is as before. */
  function PartialCopy(vb: seq<real>, h: seq<real>, n: nat, scaling: real, x: int, y: int): (r: seq<real>)
    requires n >= 1 && |vb| == 3 * |h|
    ensures |r| == |vb|
  {
    seq(|vb|, p requires 0 <= p < |vb| =>
      if p % 3 == 2 && Visited(n, p / 3, x, y) then HeightToZ(h[p / 3], n, scaling) else vb[p])
  }

  /** Before the walk nothing has changed. */
  lemma PartialCopyStart(vb: seq<real>, h: seq<real>, n: nat, scaling: real)
    requires n >= 1 && |vb| == 3 * |h|
    ensures PartialCopy(vb, h, n, scaling, 0, 0) == vb
  {
  }

  /** Visiting (column x, row y), id vid = y*(n+1)+x, writes its z and moves the walk
      one row down. */
  lemma PartialCopyStep(vb: seq<real>, h: seq<real>, n: nat, scaling: real, x: int, y: int, vid: int)
    requires n >= 1 && |h| == Cells(n) && |vb| == 3 * |h|
    requires 0 <= x <= n && 0 <= y <= n && vid == y * (n + 1) + x
    ensures 0 <= vid < |h|
    ensures PartialCopy(vb, h, n, scaling, x, y)[3 * vid + 2 := HeightToZ(h[vid], n, scaling)]
         == PartialCopy(vb, h, n, scaling, x, y + 1)
  {
    RowMajorBound(n, y, x);
    DivModUnique(y, x, n + 1);
    var a := PartialCopy(vb, h, n, scaling, x, y)[3 * vid + 2 := HeightToZ(h[vid], n, scaling)];
    var b := PartialCopy(vb, h, n, scaling, x, y + 1);
    forall p | 0 <= p < |vb|
      ensures a[p] == b[p]
    {
      var q := p / 3;
      if p % 3 == 2 && q % (n + 1) == x && q / (n + 1) == y {
        assert q == y * (n + 1) + x;
        assert p == 3 * vid + 2;
      }
    }
  }

  /** Past the bottom row of column x the walk continues at the top of column x+1. */
  lemma PartialCopyColumnEnd(vb: seq<real>, h: seq<real>, n: nat, scaling: real, x: int)
    requires n >= 1 && |h| == Cells(n) && |vb| == 3 * |h|
    ensures PartialCopy(vb, h, n, scaling, x, n + 1) == PartialCopy(vb, h, n, scaling, x + 1, 0)
  {
    var a := PartialCopy(vb, h, n, scaling, x, n + 1);
    var b := PartialCopy(vb, h, n, scaling, x + 1, 0);
    forall p | 0 <= p < |vb|
      ensures a[p] == b[p]
    {
      VertexIdSplit(n, p / 3);
    }
  }

  /** After the last column every vertex has been visited: the full copy. */
  lemma PartialCopyDone(vb: seq<real>, h: seq<real>, n: nat, scaling: real)
    requires n >= 1 && |h| == Cells(n) && |vb| == 3 * |h|
    ensures PartialCopy(vb, h, n, scaling, n + 1, 0) == CopiedHeights(vb, h, n, scaling)
  {
    var a := PartialCopy(vb, h, n, scaling, n + 1, 0);
    var b := CopiedHeights(vb, h, n, scaling);
    forall p | 0 <= p < |vb|
      ensures a[p] == b[p]
    {
      VertexIdSplit(n, p / 3);
    }
  }

  /** A height max*r with r >= 0 (a seeded corner) is copied to z = scaling*r. */
  lemma ScaledSeedZ(n: nat, scaling: real, r: real)
    requires n >= 1 && r >= 0.0
    ensures HeightToZ((n as real) * r, n, scaling) == scaling * r
  {
    assert (n as real) * r >= 0.0;
    assert ((n as real) * r) / (n as real) == r;
  }

  /** With a positive scaling, a copied z is 0 exactly when the height is at most 0,
      and is never negative. */
  lemma HeightToZSign(hv: real, n: nat, scaling: real)
    requires n >= 1 && scaling > 0.0
    ensures HeightToZ(hv, n, scaling) >= 0.0
    ensures HeightToZ(hv, n, scaling) == 0.0 <==> hv <= 0.0
  {
    if hv > 0.0 {
      assert hv / (n as real) > 0.0;
    }
  }

  /** The seven colour bands of apply_colors. */
  datatype Band = Water | Sand | Grass | Trees | DarkTrees | Mountain | Snow

  /** apply_colors' classification of a vertex z, tested in the source's order; whatever
      no earlier test takes (z >= 0.89, and any negative z) is snow. */
  function BandOf(z: real): Band
  {
    if z == 0.0 then Water
    else if z > 0.0 && z < 0.1 then Sand
    else if z >= 0.1 && z < 0.2 then Grass
    else if z >= 0.2 && z < 0.5 then Trees
    else if z >= 0.5 && z < 0.7 then DarkTrees
    else if z >= 0.7 && z < 0.89 then Mountain
    else Snow
  }

  /** Each band is exactly one interval of z (snow: z >= 0.89 or z < 0), so the bands
      partition the reals and the boundaries are half-open as listed. */
  lemma BandIntervals(z: real)
    ensures BandOf(z) == Water <==> z == 0.0
    ensures BandOf(z) == Sand <==> 0.0 < z < 0.1
    ensures BandOf(z) == Grass <==> 0.1 <= z < 0.2
    ensures BandOf(z) == Trees <==> 0.2 <= z < 0.5
    ensures BandOf(z) == DarkTrees <==> 0.5 <= z < 0.7
    ensures BandOf(z) == Mountain <==> 0.7 <= z < 0.89
    ensures BandOf(z) == Snow <==> z < 0.0 || z >= 0.89
  {
  }

  /** The RGB triple of each band (components out of 256, as the constructor sets them). */
  function Palette(b: Band): Vec3
  {
    [Red(b), Green(b), Blue(b)]
  }

  /** Red, green and blue components of each band's colour. */
  function Red(b: Band): real
  {
    match b
    case Water => 58.0 / 256.0
    case Sand => 206.0 / 256.0
    case Grass => 141.0 / 256.0
    case Trees => 50.0 / 256.0
    case DarkTrees => 42.0 / 256.0
    case Mountain => 89.0 / 256.0
    case Snow => 234.0 / 256.0
  }

  function Green(b: Band): real
  {
    match b
    case Water => 117.0 / 256.0
    case Sand => 192.0 / 256.0
    case Grass => 224.0 / 256.0
    case Trees => 130.0 / 256.0
    case DarkTrees => 91.0 / 256.0
    case Mountain => 85.0 / 256.0
    case Snow => 234.0 / 256.0
  }

  function Blue(b: Band): real
  {
    match b
    case Water => 188.0 / 256.0
    case Sand => 146.0 / 256.0
    case Grass => 159.0 / 256.0
    case Trees => 67.0 / 256.0
    case DarkTrees => 39.0 / 256.0
    case Mountain => 83.0 / 256.0
    case Snow => 234.0 / 256.0
  }

  /** The colours apply_colors pushes for the first m vertices: for each in order,
      the palette triple of its z's band. */
  function ColorsOf(vb: seq<real>, m: nat): (c: seq<real>)
    requires 3 * m <= |vb|
    ensures |c| == 3 * m
  {
    if m == 0 then [] else ColorsOf(vb, m - 1) + Palette(BandOf(vb[3 * (m - 1) + 2]))
  }

  /** The colours of the first k+1 vertices: those of the first k, then vertex k's. */
  lemma ColorsOfNext(vb: seq<real>, k: int)
    requires 0 <= k && 3 * k + 3 <= |vb|
    ensures ColorsOf(vb, k + 1) == ColorsOf(vb, k) + [Red(BandOf(vb[3 * k + 2])), Green(BandOf(vb[3 * k + 2])), Blue(BandOf(vb[3 * k + 2]))]
  {
  }

  /** The colours of the first m vertices are a prefix of those of the first m2 >= m. */
  lemma {:induction false} ColorsOfPrefix(vb: seq<real>, m: nat, m2: nat)
    requires m <= m2 && 3 * m2 <= |vb|
    ensures ColorsOf(vb, m2)[..3 * m] == ColorsOf(vb, m)
    decreases m2
  {
    if m < m2 {
      ColorsOfPrefix(vb, m, m2 - 1);
      assert ColorsOf(vb, m2)[..3 * (m2 - 1)] == ColorsOf(vb, m2 - 1);
    }
  }

  /** Among the colours of the first m vertices, vertex k's sits at entries 3k .. 3k+2
      and is the palette triple of its band. */
  lemma ColorsAt(vb: seq<real>, m: nat, k: int)
    requires 3 * m <= |vb| && 0 <= k < m
    ensures ColorsOf(vb, m)[3 * k .. 3 * k + 3] == Palette(BandOf(vb[3 * k + 2]))
  {
    var c := ColorsOf(vb, m);
    ColorsOfPrefix(vb, k + 1, m);
    assert c[3 * k .. 3 * k + 3] == c[..3 * (k + 1)][3 * k ..];
  }

  /** A vertex whose height is negative is copied to z = 0 and coloured as water. */
  lemma NegativeHeightIsWater(hv: real, n: nat, scaling: real)
    requires n >= 1 && hv < 0.0
    ensures BandOf(HeightToZ(hv, n, scaling)) == Water
  {
  }
}
