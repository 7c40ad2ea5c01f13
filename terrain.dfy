/** class Terrain (Terrain.js): the grid parameters, the height buffer that
    diamond-square fills in place, and the vertex, face, edge and colour buffers
    its methods push to or overwrite. Each method is proved against the value-level
    functions of Heights and Mesh. Random draws come from a stream `rand` of which
    the methods say which entries they consume. */
module Terrain {
  import opened Grid
  import opened Heights
  import opened Mesh

  class Terrain {
    const div: nat
    const size: nat
    const max: nat
    const minX: real
    const maxX: real
    const minY: real
    const maxY: real
    const colorBlue: Vec3 := Palette(Water)
    const colorSand: Vec3 := Palette(Sand)
    const colorGrass: Vec3 := Palette(Grass)
    const colorTrees: Vec3 := Palette(Trees)
    const colorDarkTrees: Vec3 := Palette(DarkTrees)
    const colorMountain: Vec3 := Palette(Mountain)
    const colorSnow: Vec3 := Palette(Snow)
    /** Heights of grid point (column x, row y) at x + size*y. */
    const hBuffer: array<real>
    var vBuffer: seq<real>
    var fBuffer: seq<int>
    var eBuffer: seq<int>
    var cBuffer: seq<real>
    var numVertices: real
    var numColors: real
    var numFaces: real

    /** The grid parameters agree with each other and with the height buffer. */
    ghost predicate Valid()
      reads this
    {
      && div >= 1 && IsPow2(div) && size == div + 1 && max == div
      && hBuffer.Length == Cells(max)
    }

    /** Valid, and the vertex buffer holds one (x, y, z) triple per grid point. */
    ghost predicate Meshed()
      reads this
    {
      Valid() && |vBuffer| == 3 * Cells(max)
    }

    /** new Terrain(n, minX, maxX, minY, maxY): 2^n divisions per side, a zeroed height
        buffer of size*size entries, then the vertex/face grid and its edges. */
    constructor(n: nat, minX: real, maxX: real, minY: real, maxY: real)
      ensures Meshed() && fresh(hBuffer)
      ensures div == Pow2(n) && size == div + 1 && max == div && hBuffer.Length == size * size
      ensures this.minX == minX && this.maxX == maxX && this.minY == minY && this.maxY == maxY
      ensures forall k :: 0 <= k < hBuffer.Length ==> hBuffer[k] == 0.0
      ensures vBuffer == GridVertices(div, minX, maxX, minY, maxY)
      ensures fBuffer == GridFaces(div) && eBuffer == EdgeList(fBuffer) && cBuffer == []
      ensures numVertices == Cells(div) as real && numColors == numVertices
      ensures numFaces == (2 * (div * div)) as real
    {
      var d := Pow2(n);
      Pow2IsPow2(n);
      div := d;
      size := d + 1;
      max := d;
      this.minX := minX;
      this.minY := minY;
      this.maxX := maxX;
      this.maxY := maxY;
      hBuffer := new real[(d + 1) * (d + 1)](_ => 0.0);
      cBuffer := [];
      vBuffer := [];
      fBuffer := [];
      eBuffer := [];
      new;
      GenerateTriangles();
      assert fBuffer == GridFaces(div);
      GenerateLines();
      assert eBuffer == EdgeList(fBuffer);
    }

    /** setVertex(v, i, j): entries 3*(i*(div+1)+j) .. +2 become v. */
    method SetVertex(v: Vec3, i: int, j: int)
      requires 0 <= VertexId(div, i, j) && 3 * VertexId(div, i, j) + 3 <= |vBuffer|
      modifies this`vBuffer
      ensures vBuffer == WriteVertex(old(vBuffer), div, i, j, v)
    {
      var vid := 3 * (i * (div + 1) + j);
      vBuffer := vBuffer[vid := v[0]];
      vBuffer := vBuffer[vid + 1 := v[1]];
      vBuffer := vBuffer[vid + 2 := v[2]];
    }

    /** getVertex(v, i, j): the triple stored for vertex (row i, column j). */
    function GetVertex(i: int, j: int): (v: Vec3)
      reads this
      requires 0 <= VertexId(div, i, j) && 3 * VertexId(div, i, j) + 3 <= |vBuffer|
      ensures v == ReadVertex(vBuffer, div, i, j)
    {
      var vid := 3 * (i * (div + 1) + j);
      [vBuffer[vid], vBuffer[vid + 1], vBuffer[vid + 2]]
    }

    /** generateTriangles: pushes the (div+1)^2 grid vertices row by row and the two
        triangles of each of the div^2 cells, then records the counts. */
    method GenerateTriangles()
      requires Valid()
      modifies this`vBuffer, this`fBuffer, this`numVertices, this`numColors, this`numFaces
      ensures vBuffer == old(vBuffer) + GridVertices(div, minX, maxX, minY, maxY)
      ensures fBuffer == old(fBuffer) + GridFaces(div)
      ensures numVertices == (|vBuffer| as real) / 3.0 && numColors == numVertices
      ensures numFaces == (|fBuffer| as real) / 3.0
    {
      PushVertices();
      PushFaces();
      numVertices := (|vBuffer| as real) / 3.0;
      numColors := (|vBuffer| as real) / 3.0;
      numFaces := (|fBuffer| as real) / 3.0;
    }

    /** The vertex loops of generateTriangles: vertex (row i, column j) is pushed as
        (j*xAmount + minX, minY + i*yAmount, 0), rows in order. */
    method PushVertices()
      requires Valid()
      modifies this`vBuffer
      ensures vBuffer == old(vBuffer) + GridVertices(div, minX, maxX, minY, maxY)
    {
      var xAmount := (maxX - minX) / (div as real);
      var yAmount := (maxY - minY) / (div as real);
      var i := 0;
      while i <= div
        invariant 0 <= i <= div + 1
        invariant 0 <= VertexId(div, i, 0) <= Cells(div)
        invariant vBuffer == old(vBuffer) + GridVertices(div, minX, maxX, minY, maxY)[..3 * VertexId(div, i, 0)]
      {
        PushVertexRow(i, xAmount, yAmount, old(vBuffer));
        i := i + 1;
      }
      VertexIdEnd(div);
      assert GridVertices(div, minX, maxX, minY, maxY)[..3 * VertexId(div, i, 0)] == GridVertices(div, minX, maxX, minY, maxY);
    }

    /** The inner vertex loop for row i: pushes vertices (i, 0) .. (i, div). */
    method PushVertexRow(i: int, xAmount: real, yAmount: real, ghost front: seq<real>)
      requires Valid() && 0 <= i <= div
      requires xAmount == (maxX - minX) / (div as real) && yAmount == (maxY - minY) / (div as real)
      requires vBuffer == front + GridVertices(div, minX, maxX, minY, maxY)[..3 * VertexId(div, i, 0)]
      modifies this`vBuffer
      ensures 0 <= VertexId(div, i + 1, 0) <= Cells(div)
      ensures vBuffer == front + GridVertices(div, minX, maxX, minY, maxY)[..3 * VertexId(div, i + 1, 0)]
    {
      VertexIdPrefix(div, i, div + 1);
      var j := 0;
      while j <= div
        invariant 0 <= j <= div + 1
        invariant vBuffer == front + GridVertices(div, minX, maxX, minY, maxY)[..3 * VertexId(div, i, j)]
      {
        PushVertex(i, j, xAmount, yAmount, front);
        j := j + 1;
      }
    }

    /** The body of the vertex loops: pushes the three coordinates of vertex (row i, column j). */
    method PushVertex(i: int, j: int, xAmount: real, yAmount: real, ghost front: seq<real>)
      requires Valid() && 0 <= i <= div && 0 <= j <= div
      requires xAmount == (maxX - minX) / (div as real) && yAmount == (maxY - minY) / (div as real)
      requires vBuffer == front + GridVertices(div, minX, maxX, minY, maxY)[..3 * VertexId(div, i, j)]
      modifies this`vBuffer
      ensures 3 * VertexId(div, i, j + 1) <= |GridVertices(div, minX, maxX, minY, maxY)|
      ensures vBuffer == front + GridVertices(div, minX, maxX, minY, maxY)[..3 * VertexId(div, i, j + 1)]
    {
      GridVerticesStep(front, div, minX, maxX, minY, maxY, xAmount, yAmount, i, j, VertexId(div, i, j));
      assert 3 * VertexId(div, i, j) + 3 == 3 * VertexId(div, i, j + 1);
      vBuffer := vBuffer + [(j as real) * xAmount + minX, minY + (i as real) * yAmount, 0.0];
    }

    /** The face loops of generateTriangles: cell (row i, column j), with
        vid = i*(div+1)+j, pushes (vid, vid+div+1, vid+div+2) and (vid, vid+1, vid+div+2). */
    method PushFaces()
      requires Valid()
      modifies this`fBuffer
      ensures fBuffer == old(fBuffer) + GridFaces(div)
    {
      var i := 0;
      while i < div
        invariant 0 <= i <= div
        invariant fBuffer == old(fBuffer) + GridFaces(div)[..6 * CellId(div, i, 0)]
      {
        PushFaceRow(i, old(fBuffer));
        i := i + 1;
      }
      assert CellId(div, i, 0) == div * div;
      assert GridFaces(div)[..6 * CellId(div, i, 0)] == GridFaces(div);
    }

    /** The inner face loop for row i: pushes the triangles of cells (i, 0) .. (i, div-1). */
    method PushFaceRow(i: int, ghost front: seq<int>)
      requires Valid() && 0 <= i < div
      requires fBuffer == front + GridFaces(div)[..6 * CellId(div, i, 0)]
      modifies this`fBuffer
      ensures fBuffer == front + GridFaces(div)[..6 * CellId(div, i + 1, 0)]
    {
      var j := 0;
      while j < div
        invariant 0 <= j <= div
        invariant fBuffer == front + GridFaces(div)[..6 * CellId(div, i, j)]
      {
        PushCellFaces(i, j, front);
        j := j + 1;
      }
    }

    /** The body of the face loops: the two triangles of cell (row i, column j). */
    method PushCellFaces(i: int, j: int, ghost front: seq<int>)
      requires Valid() && 0 <= i < div && 0 <= j < div
      requires fBuffer == front + GridFaces(div)[..6 * CellId(div, i, j)]
      modifies this`fBuffer
      ensures fBuffer == front + GridFaces(div)[..6 * CellId(div, i, j + 1)]
    {
      var vid := i * (div + 1) + j;
      GridFacesStep(front, div, i, j, CellId(div, i, j), vid);
      assert 6 * CellId(div, i, j) + 6 == 6 * CellId(div, i, j + 1);
      fBuffer := fBuffer + [vid, vid + div + 1, vid + div + 2, vid, vid + 1, vid + div + 2];
    }

    /** generateLines: for each triangle (a, b, c) of the face buffer, pushes the
        wireframe pairs a,b, b,c, c,a. */
    method GenerateLines()
      requires |fBuffer| % 3 == 0
      modifies this`eBuffer
      ensures eBuffer == old(eBuffer) + EdgeList(fBuffer)
    {
      var numTris := |fBuffer| / 3;
      var f := 0;
      while f < numTris
        invariant 0 <= f <= numTris
        invariant eBuffer == old(eBuffer) + EdgeList(fBuffer)[..6 * f]
      {
        PushTriangleEdges(f, old(eBuffer));
        f := f + 1;
      }
      assert EdgeList(fBuffer)[..6 * numTris] == EdgeList(fBuffer);
    }

    /** The body of generateLines' loop: the three edges of triangle f. */
    method PushTriangleEdges(f: int, ghost front: seq<int>)
      requires |fBuffer| % 3 == 0 && 0 <= f && 3 * f + 3 <= |fBuffer|
      requires eBuffer == front + EdgeList(fBuffer)[..6 * f]
      modifies this`eBuffer
      ensures eBuffer == front + EdgeList(fBuffer)[..6 * (f + 1)]
    {
      var fid := f * 3;
      ghost var w := [fBuffer[fid], fBuffer[fid + 1], fBuffer[fid + 1], fBuffer[fid + 2], fBuffer[fid + 2], fBuffer[fid]];
      EdgeListOfTriangle(fBuffer, f);
      AppendSlice(front, EdgeList(fBuffer), 6 * f, w);
      eBuffer := eBuffer + [fBuffer[fid], fBuffer[fid + 1]];
      eBuffer := eBuffer + [fBuffer[fid + 1], fBuffer[fid + 2]];
      eBuffer := eBuffer + [fBuffer[fid + 2], fBuffer[fid]];
      assert eBuffer == old(eBuffer) + w;
    }

    /** get_height(x, y): the stored height, or -1 when x or y is outside [0, max]. */
    method GetHeight(x: int, y: int) returns (h: real)
      requires Valid()
      ensures h == HeightAt(hBuffer[..], max, x, y)
      ensures !InGrid(max, x, y) ==> h == -1.0
    {
      if x < 0 || x > max || y < 0 || y > max {
        return -1.0;
      }
      assert x + size * y == VertexId(max, y, x);
      return hBuffer[x + size * y];
    }

    /** set_height(x, y, val): -1 and no change when x or y is outside [0, max];
        otherwise 0, with only entry (x, y) replaced by val. */
    method SetHeight(x: int, y: int, val: real) returns (status: int)
      requires Valid()
      modifies hBuffer
      ensures status == if InGrid(max, x, y) then 0 else -1
      ensures hBuffer[..] == WithHeight(old(hBuffer[..]), max, x, y, val)
    {
      if x < 0 || x > max || y < 0 || y > max {
        return -1;
      }
      assert x + size * y == VertexId(max, y, x);
      hBuffer[x + size * y] := val;
      return 0;
    }

    /** diamond(x, y, half, offset): the centre (x, y) of a square of side 2*half gets
        the mean of the square's corners plus the offset. */
    method Diamond(x: int, y: int, half: int, offset: real)
      requires Valid()
      modifies hBuffer
      ensures hBuffer[..] == DiamondStep(old(hBuffer[..]), max, x, y, half, offset)
    {
      var a := GetHeight(x - half, y - half);
      var b := GetHeight(x + half, y - half);
      var c := GetHeight(x + half, y + half);
      var d := GetHeight(x - half, y + half);
      var avg := (a + b + c + d) / 4.0;
      DiamondStepOf(hBuffer[..], max, x, y, half, offset, a, b, c, d);
      var status := SetHeight(x, y, avg + offset);
    }

    /** square(x, y, half, offset): (x, y) gets the mean of the four points at
        distance half along the axes plus the offset, -1 standing in for a point
        off the grid. */
    method Square(x: int, y: int, half: int, offset: real)
      requires Valid()
      modifies hBuffer
      ensures hBuffer[..] == SquareStep(old(hBuffer[..]), max, x, y, half, offset)
    {
      var a := GetHeight(x, y - half);
      var b := GetHeight(x + half, y);
      var c := GetHeight(x, y + half);
      var d := GetHeight(x - half, y);
      var avg := (a + b + c + d) / 4.0;
      SquareStepOf(hBuffer[..], max, x, y, half, offset, a, b, c, d);
      var status := SetHeight(x, y, avg + offset);
    }

    /** diam_sq(s, rough): the diamond then the square pass at block size s, drawing
        one offset per step from rand starting at entry `draws`, then the same at s/2,
        until s/2 < 1. Returns the index of the first draw not used. */
    method DiamSq(s: nat, rough: real, rand: nat -> real, draws: nat) returns (next: nat)
      requires Valid() && IsPow2(s)
      modifies hBuffer
      ensures Field(hBuffer[..], next) == DiamondSquare(Field(old(hBuffer[..]), draws), max, s, rough, rand)
      decreases s
    {
      var half := s / 2;
      var scale := rough * (s as real);
      next := draws;
      if half < 1 {
        return;
      }
      next := DiamondLoops(s, scale, rand, next);
      next := SquareLoops(s, scale, rand, next);
      next := DiamSq(half, rough, rand, next);
    }

    /** The diamond loops of diam_sq(s): the centre of every s-block, rows from s/2 in
        steps of s, each with the next draw's offset. */
    method DiamondLoops(s: nat, scale: real, rand: nat -> real, draws: nat) returns (next: nat)
      requires Valid() && s >= 2
      modifies hBuffer
      ensures Field(hBuffer[..], next) == DiamondPass(Field(old(hBuffer[..]), draws), max, s, s / 2, scale, rand)
    {
      var half := s / 2;
      next := draws;
      var y := half;
      while y < max
        invariant DiamondPass(Field(hBuffer[..], next), max, s, y, scale, rand)
               == DiamondPass(Field(old(hBuffer[..]), draws), max, s, half, scale, rand)
        decreases max - y
      {
        ghost var before := Field(hBuffer[..], next);
        next := DiamondRowLoop(s, y, scale, rand, next);
        DiamondPassStep(before, max, s, y, scale, rand, Field(hBuffer[..], next));
        y := y + s;
      }
    }

    /** The inner diamond loop of diam_sq(s) for row y: columns from s/2 in steps of s. */
    method DiamondRowLoop(s: nat, y: int, scale: real, rand: nat -> real, draws: nat) returns (next: nat)
      requires Valid() && s >= 2
      modifies hBuffer
      ensures Field(hBuffer[..], next) == DiamondRow(Field(old(hBuffer[..]), draws), max, s, y, s / 2, scale, rand)
    {
      var half := s / 2;
      next := draws;
      var x := half;
      while x < max
        invariant DiamondRow(Field(hBuffer[..], next), max, s, y, x, scale, rand)
               == DiamondRow(Field(old(hBuffer[..]), draws), max, s, y, s / 2, scale, rand)
        decreases max - x
      {
        ghost var before := Field(hBuffer[..], next);
        Diamond(x, y, half, rand(next) * scale * 2.0 - scale);
        DiamondRowStep(before, max, s, y, x, scale, rand, rand(next) * scale * 2.0 - scale, hBuffer[..]);
        next := next + 1;
        x := x + s;
      }
    }

    /** The square loops of diam_sq(s): rows from 0 in steps of s/2, each row handled
        by SquareRowLoop. */
    method SquareLoops(s: nat, scale: real, rand: nat -> real, draws: nat) returns (next: nat)
      requires Valid() && s >= 2
      modifies hBuffer
      ensures Field(hBuffer[..], next) == SquarePass(Field(old(hBuffer[..]), draws), max, s, 0, scale, rand)
    {
      var half := s / 2;
      next := draws;
      var y := 0;
      while y <= max
        invariant SquarePass(Field(hBuffer[..], next), max, s, y, scale, rand)
               == SquarePass(Field(old(hBuffer[..]), draws), max, s, 0, scale, rand)
        decreases max + 1 - y
      {
        ghost var before := Field(hBuffer[..], next);
        next := SquareRowLoop(s, y, scale, rand, next);
        SquarePassStep(before, max, s, y, scale, rand, Field(hBuffer[..], next));
        y := y + half;
      }
    }

    /** The inner square loop of diam_sq(s) for row y: columns from (y + s/2) % s in
        steps of s, each with the next draw's offset. */
    method SquareRowLoop(s: nat, y: int, scale: real, rand: nat -> real, draws: nat) returns (next: nat)
      requires Valid() && s >= 2
      modifies hBuffer
      ensures Field(hBuffer[..], next) == SquareRow(Field(old(hBuffer[..]), draws), max, s, y, (y + s / 2) % s, scale, rand)
    {
      var half := s / 2;
      next := draws;
      var x := (y + half) % s;
      ghost var x0 := x;
      while x <= max
        invariant SquareRow(Field(hBuffer[..], next), max, s, y, x, scale, rand)
               == SquareRow(Field(old(hBuffer[..]), draws), max, s, y, x0, scale, rand)
        decreases max + 1 - x
      {
        ghost var before := Field(hBuffer[..], next);
        var offset := rand(next) * scale * 2.0 - scale;
        Square(x, y, half, offset);
        SquareRowStep(before, max, s, y, x, scale, rand, offset, hBuffer[..]);
        next := next + 1;
        x := x + s;
      }
    }

    /** copy_heights(scaling): the z of every vertex becomes 0 for a negative height
        and scaling*h/max otherwise; x and y stay. */
    method CopyHeights(scaling: real)
      requires Meshed()
      modifies this`vBuffer
      ensures vBuffer == CopiedHeights(old(vBuffer), hBuffer[..], max, scaling)
    {
      PartialCopyStart(vBuffer, hBuffer[..], max, scaling);
      var x := 0;
      while x < size
        invariant 0 <= x <= size
        invariant vBuffer == PartialCopy(old(vBuffer), hBuffer[..], max, scaling, x, 0)
      {
        CopyColumn(x, scaling, old(vBuffer));
        x := x + 1;
      }
      PartialCopyDone(old(vBuffer), hBuffer[..], max, scaling);
    }

    /** The inner loop of copy_heights for column x: rows 0 .. max. */
    method CopyColumn(x: int, scaling: real, ghost v0: seq<real>)
      requires Meshed() && 0 <= x <= max && |v0| == 3 * Cells(max)
      requires vBuffer == PartialCopy(v0, hBuffer[..], max, scaling, x, 0)
      modifies this`vBuffer
      ensures vBuffer == PartialCopy(v0, hBuffer[..], max, scaling, x + 1, 0)
    {
      var y := 0;
      while y < size
        invariant 0 <= y <= size
        invariant vBuffer == PartialCopy(v0, hBuffer[..], max, scaling, x, y)
      {
        CopyHeight(x, y, scaling, v0);
        y := y + 1;
      }
      PartialCopyColumnEnd(v0, hBuffer[..], max, scaling, x);
    }

    /** The body of copy_heights' loops: the z of vertex (column x, row y). */
    method CopyHeight(x: int, y: int, scaling: real, ghost v0: seq<real>)
      requires Meshed() && 0 <= x <= max && 0 <= y <= max && |v0| == 3 * Cells(max)
      requires vBuffer == PartialCopy(v0, hBuffer[..], max, scaling, x, y)
      modifies this`vBuffer
      ensures vBuffer == PartialCopy(v0, hBuffer[..], max, scaling, x, y + 1)
    {
      var vid := 3 * (y * size + x);
      ghost var k := y * size + x;
      assert vid == 3 * k && x + size * y == k && k == y * (max + 1) + x;
      PartialCopyStep(v0, hBuffer[..], max, scaling, x, y, k);
      if hBuffer[x + size * y] < 0.0 {
        assert 0.0 == HeightToZ(hBuffer[k], max, scaling);
        vBuffer := vBuffer[vid + 2 := 0.0];
      } else {
        assert scaling * (hBuffer[x + size * y] / (max as real)) == HeightToZ(hBuffer[k], max, scaling);
        vBuffer := vBuffer[vid + 2 := scaling * (hBuffer[x + size * y] / (max as real))];
      }
    }

    /** apply_colors: for every vertex, row by row, pushes the colour of the band its
        z falls in. */
    method ApplyColors()
      requires Meshed()
      modifies this`cBuffer
      ensures cBuffer == old(cBuffer) + ColorsOf(vBuffer, Cells(max))
    {
      var i := 0;
      while i < size
        invariant 0 <= i <= size
        invariant 0 <= VertexId(div, i, 0) <= Cells(div)
        invariant cBuffer == old(cBuffer) + ColorsOf(vBuffer, VertexId(div, i, 0))
      {
        ApplyRowColors(i, old(cBuffer));
        i := i + 1;
      }
      VertexIdEnd(div);
    }

    /** The inner loop of apply_colors for row i: pushes the colours of vertices (i, 0) .. (i, max). */
    method ApplyRowColors(i: int, ghost front: seq<real>)
      requires Meshed() && 0 <= i <= max
      requires cBuffer == front + ColorsOf(vBuffer, VertexId(div, i, 0))
      modifies this`cBuffer
      ensures 0 <= VertexId(div, i + 1, 0) <= Cells(div)
      ensures cBuffer == front + ColorsOf(vBuffer, VertexId(div, i + 1, 0))
    {
      VertexIdPrefix(div, i, div + 1);
      var j := 0;
      while j < size
        invariant 0 <= j <= size
        invariant cBuffer == front + ColorsOf(vBuffer, VertexId(div, i, j))
      {
        PushVertexColor(i, j, front);
        j := j + 1;
      }
    }

    /** The body of apply_colors' inner loop: pushes the colour of the first band, in
        the source's order of tests, whose interval holds vertex (i, j)'s z. */
    method PushVertexColor(i: int, j: int, ghost front: seq<real>)
      requires Meshed() && 0 <= i <= max && 0 <= j <= max
      requires cBuffer == front + ColorsOf(vBuffer, VertexId(div, i, j))
      modifies this`cBuffer
      ensures cBuffer == front + ColorsOf(vBuffer, VertexId(div, i, j + 1))
    {
      var v := GetVertex(i, j);
      var rgb := BandColor(v[2]);
      ColorsOfNext(vBuffer, VertexId(div, i, j));
      assert VertexId(div, i, j) + 1 == VertexId(div, i, j + 1);
      cBuffer := cBuffer + [rgb[0], rgb[1], rgb[2]];
    }

    /** The colour test of apply_colors for one vertex z: the first band whose interval
        holds z, snow when none does. */
    method BandColor(z: real) returns (rgb: Vec3)
      ensures rgb == Palette(BandOf(z))
    {
      if z == 0.0 {
        rgb := colorBlue;
      } else if z > 0.0 && z < 0.1 {
        rgb := colorSand;
      } else if z >= 0.1 && z < 0.2 {
        rgb := colorGrass;
      } else if z >= 0.2 && z < 0.5 {
        rgb := colorTrees;
      } else if z >= 0.5 && z < 0.7 {
        rgb := colorDarkTrees;
      } else if z >= 0.7 && z < 0.89 {
        rgb := colorMountain;
      } else {
        rgb := colorSnow;
      }
    }

    /** generateTerrain(roughness, scaling): seeds (0,0), (max,0) and (0,max) with max
        times draws 0, 1 and 2 and (max,max) with 0, runs diam_sq(max) on draws 3, ...,
        copies the heights into the vertices and colours them. Every diamond step of the
        synthesis averages four stored heights, and no write of either pass is rejected. */
    method GenerateTerrain(roughness: real, scaling: real, rand: nat -> real)
      requires Meshed()
      modifies this`vBuffer, this`cBuffer, hBuffer
      ensures hBuffer[..] == Synthesize(old(hBuffer[..]), max, roughness, rand).heights
      ensures hBuffer[..] == DirectDiamondSquare(SeedCorners(old(hBuffer[..]), max, rand), max, max, roughness, rand).heights
      ensures vBuffer == CopiedHeights(old(vBuffer), hBuffer[..], max, scaling)
      ensures cBuffer == old(cBuffer) + ColorsOf(vBuffer, Cells(max))
    {
      ghost var h0 := hBuffer[..];
      SeedCornersWrites(h0, max, rand, (max as real) * rand(0), (max as real) * rand(1), (max as real) * rand(2));
      var s0 := SetHeight(0, 0, (max as real) * rand(0));
      var s1 := SetHeight(max, 0, (max as real) * rand(1));
      var s2 := SetHeight(max, max, 0.0);
      var s3 := SetHeight(0, max, (max as real) * rand(2));
      assert Field(hBuffer[..], 3) == SeedCorners(h0, max, rand);
      var next := DiamSq(max, roughness, rand, 3);
      assert hBuffer[..] == Synthesize(h0, max, roughness, rand).heights;
      SynthesizeOnGrid(h0, max, roughness, rand);
      CopyHeights(scaling);
      ApplyColors();
    }
  }

  /** Grid point (column x, row y) after copy_heights: its z is HeightToZ of the
      height get_height returns there. */
  lemma CopiedVertexZ(vb: seq<real>, h: seq<real>, n: nat, scaling: real, x: int, y: int)
    requires n >= 1 && |h| == Cells(n) && |vb| == 3 * Cells(n) && InGrid(n, x, y)
    ensures CopiedHeights(vb, h, n, scaling)[3 * VertexId(n, y, x) + 2] == HeightToZ(HeightAt(h, n, x, y), n, scaling)
  {
    CopiedHeightsAt(vb, h, n, scaling, VertexId(n, y, x));
  }

  /** The value generateTerrain seeds corner (x, y) with: max times draws 0, 1 and 2 at
      (0,0), (max,0) and (0,max), and 0 at (max,max). */
  function CornerSeed(n: nat, rand: nat -> real, x: int, y: int): real
  {
    if x == 0 && y == 0 then (n as real) * rand(0)
    else if y == 0 then (n as real) * rand(1)
    else if x == 0 then (n as real) * rand(2)
    else 0.0
  }

  /** A generated corner as the vertex buffer holds it: its z is the copy of its seed
      (scaling*r for a seed max*r with r >= 0, by Mesh.ScaledSeedZ); the corner
      (max,max) gets z = 0 and is coloured as water. */
  lemma GeneratedCornerVertex(vb: seq<real>, h: seq<real>, n: nat, rough: real, scaling: real, rand: nat -> real,
                              x: int, y: int)
    requires IsPow2(n) && |h| == Cells(n) && |vb| == 3 * Cells(n)
    requires (x == 0 || x == n) && (y == 0 || y == n)
    ensures var z := CopiedHeights(vb, Synthesize(h, n, rough, rand).heights, n, scaling);
      z[3 * VertexId(n, y, x) + 2] == HeightToZ(CornerSeed(n, rand, x, y), n, scaling)
    ensures var z := CopiedHeights(vb, Synthesize(h, n, rough, rand).heights, n, scaling);
      x == n && y == n ==> z[3 * VertexId(n, y, x) + 2] == 0.0 && BandOf(z[3 * VertexId(n, y, x) + 2]) == Water
  {
    assert n >= 1;
    var g := Synthesize(h, n, rough, rand).heights;
    CornersKeepSeeds(h, n, rough, rand);
    CopiedVertexZ(vb, g, n, scaling, x, y);
    assert HeightAt(g, n, x, y) == CornerSeed(n, rand, x, y) by {
      if x == 0 && y == 0 {
      } else if y == 0 {
        assert x == n;
      } else if x == 0 {
        assert y == n;
      } else {
        assert x == n && y == n;
      }
    }
  }

  /** Every index of the wireframe built from the grid's faces names a grid vertex. */
  lemma GridEdgesInRange(n: nat)
    requires n >= 1
    ensures |EdgeList(GridFaces(n))| == 12 * (n * n)
    ensures forall p :: 0 <= p < |EdgeList(GridFaces(n))| ==> 0 <= EdgeList(GridFaces(n))[p] < Cells(n)
  {
    GridFacesInRange(n);
    EdgeListInRange(GridFaces(n), Cells(n));
  }
}
