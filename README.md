# Terrain generator and bouncing sphere, modelled in Dafny

This project models two components of a set of WebGL course projects.

1. `Terrain` (varung2_MP2/Terrain.js) is a procedural terrain generator:
   - The grid has 2^n divisions per side.
   - The vertex buffer is filled row by row, with two triangles per cell.
   - The wireframe edge list is derived from the triangles.
   - Bounds-checked height accessors return -1 off the grid.
   - Diamond-square synthesis writes into a flat height buffer in place.
   - The heights are copied into the vertex z coordinates.
   - Each vertex is coloured by one of seven height bands.
2. `sphereMesh` (varung2_MP4/sphereMesh.js) is a particle that moves through the box [-40,40] x [-40,40] x [-49,50]:
   - Its position, velocity and acceleration are 3-element arrays, updated component by component.
   - Each step advances the position.
   - It reflects and damps the velocity on every axis whose wall the sphere crosses.
   - It pushes the sphere back inside the box with a 0.01 margin.
   - It then updates the velocity, with or without drag, and sets the y acceleration to gravity.

Both sources work by mutation, so each is a `class` whose methods are proved against value-level specification functions:

- `Grid` holds the row-major index arithmetic.
- `Heights` holds the accessors and diamond-square as functions of a height sequence.
- `Mesh` holds the vertex, face, edge, copy and colour buffers as functions.
- `Terrain` holds class `Terrain`.
- `Sphere` holds the integrator functions and class `SphereMesh`.

Each loop nest of the source is a method per loop, plus a method for the loop body. Each method's contract is the loop invariant of the source loop at the next index.

`Math.random()` is an injected stream `rand: nat -> real`. The diamond-square methods take the index of the first unused draw and return the index after the last one they used. So the order in which the source consumes random numbers is part of the contracts.

The square step averages all four neighbours. A neighbour off the grid contributes the -1 that `get_height` returns. A description of diamond-square that skips such neighbours would give different heights; the model follows Terrain.js (`Heights.SquareOnBottomEdge`).

`update_sphere` calls `update_position(time)` without its `g` argument. In `check_bounds` the test `g > 0.0` is then false, so the 0.78 lower-wall damping is never used on that path. The model passes `None` there (`Sphere.Step`, `Sphere.StepBouncesWithoutGravity`). That damping is reachable only through a direct `UpdatePosition(t, Some(g))` (`Sphere.GravityBounceY`).

## Model

| member | source | states |
|---|---|---|
| Grid.Pow2IsPow2 | varung2_MP2/Terrain.js:17 | div = 2^n is 1, 2, 4, ...: diam_sq started at max halves down to a block size of 1 |
| Grid.VertexId | varung2_MP2/Terrain.js:98 | the id i*(div+1)+j of every grid point (row i, column j) lies in [0, (div+1)^2) |
| Grid.VertexIdPrefix | varung2_MP2/Terrain.js:225-236 | walking row i one column past its end lands on the first id of row i+1, and every prefix lies within [0, (div+1)^2] |
| Grid.VertexIdEnd | varung2_MP2/Terrain.js:225-236 | the row after the last one starts at (div+1)^2: the vertex loops visit every id |
| Grid.CellId | varung2_MP2/Terrain.js:238-251 | cell ids i*div+j of the face loops lie in [0, div^2] |
| Grid.VertexIdInjective | varung2_MP2/Terrain.js:96-117 | two grid points with the same vertex id are the same point |
| Grid.VertexIdInjectiveAll | varung2_MP2/Terrain.js:96-117 | vertex ids are injective over all grid points |
| Grid.VertexIdSplit | varung2_MP2/Terrain.js:420-432 | every id below (div+1)^2 is the id of the grid point (id / (div+1), id % (div+1)) |
| Heights.WithHeightThenHeightAt | varung2_MP2/Terrain.js:316-327 | set_height then get_height reads the value back at its own point, and every other point reads as before; a write off the grid changes nothing |
| Heights.Offset | varung2_MP2/Terrain.js:362 | a draw in [0,1) gives an offset in [-scale, scale) |
| Heights.DiamondSquare | varung2_MP2/Terrain.js:351-375 | diam_sq terminates, because the block size halves on each call, and it keeps the height buffer's size |
| Heights.SeedCornersAt | varung2_MP2/Terrain.js:338-341 | after the four seeding writes, (0,0), (max,0) and (0,max) hold max times draws 0, 1 and 2, and (max,max) holds 0 |
| Heights.CornerWritesAt | varung2_MP2/Terrain.js:338-341 | four writes to the four distinct corners of the grid are each read back |
| Heights.SquarePhaseOnLatticeRow | varung2_MP2/Terrain.js:368 | on a row that is a multiple of the block size s, the square loop starts at column s/2 |
| Heights.LatticeRefines | varung2_MP2/Terrain.js:374 | a point on the lattice of block size s stays on the lattice of the next block size s/2 |
| Heights.DiamondTargetInGrid | varung2_MP2/Terrain.js:360-364 | every point the diamond loops visit (both coordinates congruent to s/2 modulo s, with s dividing max) is on the grid and is not a corner, and all four of its diagonal neighbours are on the grid; DiamondRowOnGrid applies it to each step of the loops |
| Heights.SquareTargetInGrid | varung2_MP2/Terrain.js:366-371 | every point the square loops visit is on the grid and is not a corner |
| Heights.DiamondRowWrites | varung2_MP2/Terrain.js:361-363 | a diamond row changes only points of its own row whose column is congruent to its start modulo s |
| Heights.SquareRowWrites | varung2_MP2/Terrain.js:368-370 | a square row changes only points of its own row whose column is congruent to its start modulo s |
| Heights.DiamondPassKeepsLattice | varung2_MP2/Terrain.js:360-364 | the diamond loops of block size s leave every point whose column is a multiple of s |
| Heights.SquarePassKeepsLattice | varung2_MP2/Terrain.js:366-371 | the square loops of block size s leave every point whose coordinates are both multiples of s |
| Heights.DiamondSquareKeepsLattice | varung2_MP2/Terrain.js:351-375 | diam_sq(s) with all its recursive calls never changes a point whose coordinates are multiples of s |
| Heights.DiamondSquareKeepsCorner | varung2_MP2/Terrain.js:342 | diam_sq(max) leaves each of the four corners as it was |
| Heights.CornersKeepSeeds | varung2_MP2/Terrain.js:337-342 | after synthesis the corners still hold their seeds: max*r0, max*r1, max*r2 and 0 |
| Heights.SquareOnBottomEdge | varung2_MP2/Terrain.js:403-408 | on row 0 the square step averages in the -1 sentinel for the neighbour below the grid; it is not skipped |
| Heights.DiamondStepOnGrid | varung2_MP2/Terrain.js:380-395 | where the four diagonal neighbours are on the grid, the diamond step writes, at (x,y) itself, the mean of four stored heights plus the offset; no -1 enters and the write is not rejected |
| Heights.SquareStepOnGrid | varung2_MP2/Terrain.js:400-415 | at a point on the grid the square step's write lands at (x,y); its reads still go through get_height |
| Heights.DiamondRowOnGrid | varung2_MP2/Terrain.js:361-363 | each step of a diamond row, at the centres the loops visit, is the direct-access step above |
| Heights.DiamondPassOnGrid | varung2_MP2/Terrain.js:360-364 | the whole diamond pass of block size s (s dividing max) consists of direct-access steps |
| Heights.SquareRowOnGrid | varung2_MP2/Terrain.js:368-370 | each step of a square row, at the points the loops visit, writes on the grid |
| Heights.SquarePassOnGrid | varung2_MP2/Terrain.js:367-371 | the whole square pass of block size s writes only on the grid |
| Heights.DiamondSquareOnGrid | varung2_MP2/Terrain.js:351-375 | at every block size of the recursion, the diamond steps average four stored heights and no write of either pass is rejected |
| Heights.SynthesizeOnGrid | varung2_MP2/Terrain.js:337-342 | the synthesis generateTerrain runs from max = 2^n is the direct-access one: the diamond steps never average the sentinel, and no set_height returns -1 |
| Mesh.GridVertices | varung2_MP2/Terrain.js:225-236 | the vertex loops push exactly 3*(div+1)^2 coordinates |
| Mesh.GridVerticesAt | varung2_MP2/Terrain.js:225-236 | vertex (i,j) sits at entries 3*(i*(div+1)+j) .. +2 and is (j*(maxX-minX)/div + minX, minY + i*(maxY-minY)/div, 0) |
| Mesh.GridVerticesStep | varung2_MP2/Terrain.js:227-229 | pushing vertex (i,j) after the vertices before it extends the pushed prefix of the grid by that vertex |
| Mesh.GridFaces | varung2_MP2/Terrain.js:238-251 | the face loops push exactly 6*div^2 indices, i.e. 2*div^2 triangles |
| Mesh.GridFacesAt | varung2_MP2/Terrain.js:238-251 | cell (i,j) owns face entries 6*(i*div+j) .. +5, which hold (vid, vid+div+1, vid+div+2, vid, vid+1, vid+div+2) with vid = i*(div+1)+j |
| Mesh.GridFacesStep | varung2_MP2/Terrain.js:241-249 | pushing the two triangles of cell (i,j) extends the pushed prefix of the faces by that cell |
| Mesh.GridFacesInRange | varung2_MP2/Terrain.js:238-251 | every face index names a grid vertex: 0 <= index < (div+1)^2 |
| Mesh.EdgeList | varung2_MP2/Terrain.js:297-311 | the edge buffer is twice as long as the face buffer |
| Mesh.EdgeListOfTriangle | varung2_MP2/Terrain.js:299-310 | triangle (a,b,c) contributes exactly a,b, b,c, c,a, in that order, at entries 6t .. 6t+5 |
| Mesh.EdgeListInRange | varung2_MP2/Terrain.js:297-311 | any index bound that holds for the faces holds for the edges |
| Mesh.WriteVertex | varung2_MP2/Terrain.js:96-102 | setVertex keeps the vertex buffer's length |
| Mesh.WriteThenReadVertex | varung2_MP2/Terrain.js:96-117 | setVertex then getVertex returns v at (i,j), and every other grid vertex as before |
| Mesh.WriteVertexFrame | varung2_MP2/Terrain.js:96-102 | setVertex writes entries 3*(i*(div+1)+j) .. +2 and no other entry |
| Mesh.CopiedHeights | varung2_MP2/Terrain.js:420-432 | copy_heights keeps the vertex buffer's length |
| Mesh.CopiedHeightsAt | varung2_MP2/Terrain.js:424-429 | after the copy, vertex k keeps x and y, and its z is 0 for a negative height and scaling*h/max otherwise |
| Mesh.PartialCopyStart | varung2_MP2/Terrain.js:422-423 | before the copy loops nothing has changed |
| Mesh.PartialCopyStep | varung2_MP2/Terrain.js:424-429 | visiting (x,y) writes only the z of vertex y*size+x and moves the walk one row down |
| Mesh.PartialCopyColumnEnd | varung2_MP2/Terrain.js:422-423 | past the last row of column x the walk continues at the top of column x+1 |
| Mesh.PartialCopyDone | varung2_MP2/Terrain.js:420-432 | after the last column every vertex has been copied |
| Mesh.ScaledSeedZ | varung2_MP2/Terrain.js:428 | a non-negative seed max*r is copied to z = scaling*r |
| Mesh.HeightToZSign | varung2_MP2/Terrain.js:425-429 | with positive scaling, a copied z is never negative, and it is 0 exactly when the height is at most 0 |
| Mesh.BandIntervals | varung2_MP2/Terrain.js:628-659 | the seven bands partition the reals: water when z = 0, sand when 0<z<0.1, grass for [0.1,0.2), trees for [0.2,0.5), dark trees for [0.5,0.7), mountain for [0.7,0.89), and snow for everything else, including negative z |
| Mesh.ColorsOf | varung2_MP2/Terrain.js:619-663 | the colours of m vertices are exactly 3*m entries |
| Mesh.ColorsOfPrefix | varung2_MP2/Terrain.js:622-623 | the colours of the first m vertices are a prefix of those of any longer run |
| Mesh.ColorsAt | varung2_MP2/Terrain.js:619-663 | vertex k's colour sits at entries 3k .. 3k+2 and is the palette triple of its z's band |
| Mesh.NegativeHeightIsWater | varung2_MP2/Terrain.js:425-426 | a negative height is copied to z = 0 and coloured as water |
| Terrain.Terrain.constructor | varung2_MP2/Terrain.js:16-81 | div = 2^n, size = div+1 and max = div; a zeroed height buffer of size*size entries; vertex, face and edge buffers exactly as the loops push them; an empty colour buffer; numVertices = numColors = (div+1)^2 and numFaces = 2*div^2 |
| Terrain.Terrain.SetVertex | varung2_MP2/Terrain.js:96-102 | the vertex buffer becomes WriteVertex of the old one |
| Terrain.Terrain.GetVertex | varung2_MP2/Terrain.js:110-117 | returns the triple stored at entries 3*(i*(div+1)+j) .. +2 |
| Terrain.Terrain.GenerateTriangles | varung2_MP2/Terrain.js:220-256 | appends the whole vertex grid and the whole face list; numVertices = numColors = vertex entries / 3 and numFaces = face entries / 3 |
| Terrain.Terrain.PushVertices | varung2_MP2/Terrain.js:222-236 | the vertex loops append exactly GridVertices |
| Terrain.Terrain.PushVertexRow | varung2_MP2/Terrain.js:226-235 | row i extends the pushed prefix from the start of row i to the start of row i+1 |
| Terrain.Terrain.PushVertex | varung2_MP2/Terrain.js:227-229 | one vertex extends the pushed prefix by one grid point |
| Terrain.Terrain.PushFaces | varung2_MP2/Terrain.js:238-251 | the face loops append exactly GridFaces |
| Terrain.Terrain.PushFaceRow | varung2_MP2/Terrain.js:239-250 | row i extends the pushed faces from cell (i,0) to cell (i+1,0) |
| Terrain.Terrain.PushCellFaces | varung2_MP2/Terrain.js:241-249 | one cell extends the pushed faces by its two triangles |
| Terrain.Terrain.GenerateLines | varung2_MP2/Terrain.js:297-311 | appends exactly EdgeList of the face buffer |
| Terrain.Terrain.PushTriangleEdges | varung2_MP2/Terrain.js:301-309 | triangle f extends the pushed edges by its three pairs |
| Terrain.Terrain.GetHeight | varung2_MP2/Terrain.js:316-319 | returns the height at (x,y), or -1 when x or y is outside [0, max] |
| Terrain.Terrain.SetHeight | varung2_MP2/Terrain.js:323-327 | returns -1 and changes nothing off the grid; otherwise returns 0 and replaces only entry (x,y) |
| Terrain.Terrain.Diamond | varung2_MP2/Terrain.js:380-395 | the height buffer becomes DiamondStep of the old one |
| Terrain.Terrain.Square | varung2_MP2/Terrain.js:400-415 | the height buffer becomes SquareStep of the old one |
| Terrain.Terrain.DiamSq | varung2_MP2/Terrain.js:351-375 | the heights and the draws consumed are exactly those of DiamondSquare |
| Terrain.Terrain.DiamondLoops | varung2_MP2/Terrain.js:360-364 | the diamond loops give DiamondPass, one draw per step |
| Terrain.Terrain.DiamondRowLoop | varung2_MP2/Terrain.js:361-363 | one row of diamond steps gives DiamondRow |
| Terrain.Terrain.SquareLoops | varung2_MP2/Terrain.js:367-371 | the square loops give SquarePass, one draw per step |
| Terrain.Terrain.SquareRowLoop | varung2_MP2/Terrain.js:368-370 | one row of square steps, from column (y+s/2)%s, gives SquareRow |
| Terrain.Terrain.CopyHeights | varung2_MP2/Terrain.js:420-432 | the vertex buffer becomes CopiedHeights of the old one |
| Terrain.Terrain.CopyColumn | varung2_MP2/Terrain.js:423-430 | column x moves the copy walk from the top of column x to the top of column x+1 |
| Terrain.Terrain.CopyHeight | varung2_MP2/Terrain.js:424-429 | copies one z and moves the walk one row down |
| Terrain.Terrain.ApplyColors | varung2_MP2/Terrain.js:619-663 | appends ColorsOf all (div+1)^2 vertices, in row-major order |
| Terrain.Terrain.ApplyRowColors | varung2_MP2/Terrain.js:623-661 | row i extends the pushed colours from vertex (i,0) to vertex (i+1,0) |
| Terrain.Terrain.PushVertexColor | varung2_MP2/Terrain.js:624-659 | one vertex extends the pushed colours by its band's triple |
| Terrain.Terrain.BandColor | varung2_MP2/Terrain.js:628-659 | the if-chain picks the palette triple of BandOf(z) |
| Terrain.Terrain.GenerateTerrain | varung2_MP2/Terrain.js:337-346 | the heights become Synthesize (seeded corners, then diam_sq(max) on draws 3, 4, ...), which equals the direct-access synthesis; the vertex z values are then copied from the heights, and the colours of every vertex are appended |
| Terrain.CopiedVertexZ | varung2_MP2/Terrain.js:420-432 | grid point (x,y) gets as its z the copy of the height that get_height returns there |
| Terrain.GeneratedCornerVertex | varung2_MP2/Terrain.js:337-346 | after generateTerrain, each corner vertex's z is the copy of its seed; (max,max) has z = 0 and is coloured as water |
| Terrain.GridEdgesInRange | varung2_MP2/Terrain.js:297-311 | the grid's wireframe has 12*div^2 entries, each naming a grid vertex |
| Sphere.ClampUpperFirstInside | varung2_MP4/sphereMesh.js:119-133 | when 2*rad + 0.01 fits, the x/z correction lands inside the walls, and it leaves the position alone exactly when it was already inside |
| Sphere.ClampLowerFirstInside | varung2_MP4/sphereMesh.js:110-116 | the same for the y correction, which tests the lower wall first |
| Sphere.CorrectedInBox | varung2_MP4/sphereMesh.js:102-135 | position_correction puts a sphere that fits inside the box on every axis, and changes the position exactly when it was not already inside |
| Sphere.CorrectedIdempotent | varung2_MP4/sphereMesh.js:102-135 | correcting twice is the same as correcting once |
| Sphere.CorrectionNeedsFit | varung2_MP4/sphereMesh.js:102-135 | a sphere of radius 45, too big for the box, is left outside it |
| Sphere.BouncedDamps | varung2_MP4/sphereMesh.js:70-98 | no velocity component grows in magnitude; a moving axis changes exactly when its sphere crosses one of that axis's walls |
| Sphere.NoGravityBounceY | varung2_MP4/sphereMesh.js:83-92 | with no g the y rule is the plain 0.98 rule |
| Sphere.GravityBounceY | varung2_MP4/sphereMesh.js:86-89 | with g > 0, crossing the lower y wall damps by 0.78 (-5 becomes 3.9); with no g it damps by 0.98 (4.9) |
| Sphere.StepInBox | varung2_MP4/sphereMesh.js:50-59 | after update_sphere a sphere that fits is inside the box, and the acceleration is (a0, g, a2) |
| Sphere.StepBouncesWithoutGravity | varung2_MP4/sphereMesh.js:50-59 | update_sphere bounces y by the same 0.98 rule as x, whatever g is: the 0.78 damping is never used on this path |
| Sphere.StepExample | varung2_MP4/sphereMesh.js:50-59 | from (0,0,0) with velocity (0,-5,0), radius 1 and timestep 1, one step reaches (0,-5,0) with the velocity and acceleration unchanged |
| Sphere.SphereMesh.constructor | varung2_MP4/sphereMesh.js:8-15 | keeps the given arrays themselves (not copies), the radius and the timestep |
| Sphere.SphereMesh.UpdatePosition | varung2_MP4/sphereMesh.js:17-29 | the position advances by t*velocity, the velocity is bounced at the advanced position, and then the position is corrected; a sphere that fits ends inside the box |
| Sphere.SphereMesh.CheckBounds | varung2_MP4/sphereMesh.js:70-98 | only the velocity changes, to Bounced at the current position |
| Sphere.SphereMesh.PositionCorrection | varung2_MP4/sphereMesh.js:102-135 | only the position changes, to Corrected; a sphere that fits ends inside the box, and one already inside is unchanged |
| Sphere.SphereMesh.CorrectLowerFirst | varung2_MP4/sphereMesh.js:110-116 | the y correction changes only that component |
| Sphere.SphereMesh.CorrectUpperFirst | varung2_MP4/sphereMesh.js:119-133 | the x or z correction changes only that component |
| Sphere.SphereMesh.UpdateVelocity | varung2_MP4/sphereMesh.js:31-43 | only the velocity changes: to t*a + v*d when d > 0, and to v + t*a otherwise |
| Sphere.SphereMesh.UpdateAcceleration | varung2_MP4/sphereMesh.js:46-48 | only acceleration[1] changes, to gravity |
| Sphere.SphereMesh.UpdateSphere | varung2_MP4/sphereMesh.js:50-59 | the new position, velocity and acceleration are one Step with real_time when t is true and the stored timestep otherwise, and with no g passed to the bounce; a sphere that fits ends inside the box |
| Sphere.SphereMesh.GetRadius | varung2_MP4/sphereMesh.js:61-63 | returns rad and changes nothing |
| Sphere.SphereMesh.GetPosition | varung2_MP4/sphereMesh.js:65-67 | returns the position array itself and changes nothing |

## Left out

- The WebGL plumbing of Terrain.js is not modelled: the extension check in the constructor, `loadBuffers`, `drawTriangles` and `drawEdges`. These are GPU calls.
- Console logging and `printBuffers` are not modelled.
- `fix_normals`, `normalize`, `average_vec_3`, `calc_vector`, `cross_product` and the normal buffer `nBuffer` are not modelled. They are floating-point numerics with square roots and possible division by zero (NaN). The source calls `fix_normals` between `copy_heights` and `apply_colors`. It writes only `nBuffer`, so `GenerateTerrain` omits that call.
- All numbers are mathematical reals. Neither the Float32 rounding of the height buffer nor double rounding is modelled.
- `Math.random()` is a parameter `rand: nat -> real`. Where the range [0,1) matters (`Heights.Offset`), it is a hypothesis.
- Terrain.Terrain.DiamSq: requires a power-of-two block size. The source only ever calls it with max = 2^n and its halves; for other sizes JavaScript's `size/2` would be fractional.
- Terrain.Terrain.constructor: takes a natural exponent n. A negative or fractional exponent would give a fractional `div`.
- Terrain.Terrain.GetVertex: returns the triple instead of writing it into a caller's array `v`.
- Terrain.Terrain.BandColor: computes the band's triple before a single push of three components. The source pushes the components one at a time in each branch.
- Sphere.SphereMesh.UpdateSphere: `t` is a boolean. JavaScript's loose `t == true` would also accept 1 or "1".
- Sphere.SphereMesh.constructor: requires three-element vectors held in three distinct arrays. Aliasing between position, velocity and acceleration is not modelled; the colour array is only stored.
- The rest of the repository is not part of this model: the other course projects, the camera and input handling, and the file loading.
