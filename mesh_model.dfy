/**
  Value model of one subdivision level of the terrain (`TerrainGeometry::SubdivisionLevel` in
  src/terrain/terrainGeometry.cpp) and of the read-only operations on its vertices and triangles.

  Pointers become indices into two arenas: `verts` (the `Vertex` records stored in the
  `_vertices` map) and `tris` (the `Triangle` records stored in the `_triangles` set).
  `vertexAt` is the `_vertices` map itself (position -> arena index), `triangleAt` is the
  triangle set (ordered vertex triple -> arena index) and `buckets` is `_trianglesInSubChunk`.
  Positions are exact rationals; every weight the code uses is rational.
 */
module MeshModel {
  import opened Wrappers
  import opened Sorting

  // Constants of terrainGeometry.h, which is not part of this model. The values are placeholders;
  // what the code needs of them is: CHUNK_SIZE divisible by GRID_SUBDIV and
  // MAX_COORD == NB_CHUNKS * CHUNK_SIZE (the far edge of the world).
  const NB_CHUNKS: nat := 16
  const GRID_SUBDIV: nat := 8
  const CHUNK_SIZE: nat := 256
  const SUB_SIZE: nat := CHUNK_SIZE / GRID_SUBDIV
  const MAX_COORD: nat := NB_CHUNKS * CHUNK_SIZE
  const MAX_SUBDIV_LVL: nat := 3

  /** The Biome enumeration; NO_DEFINED_BIOME is one of its values. */
  type Biome = nat
  const NO_DEFINED_BIOME: Biome := 0

  datatype Vec3 = Vec3(x: real, y: real, z: real)

  const Zero := Vec3(0.0, 0.0, 0.0)

  function Add(a: Vec3, b: Vec3): Vec3 { Vec3(a.x + b.x, a.y + b.y, a.z + b.z) }
  function Scale(k: real, a: Vec3): Vec3 { Vec3(k * a.x, k * a.y, k * a.z) }

  /** The three corners handed to addTriangle (a `std::array<sf::Vector3f,3>`). */
  type Points = s: seq<Vec3> | |s| == 3 witness [Vec3(0.0, 0.0, 0.0), Vec3(0.0, 0.0, 0.0), Vec3(0.0, 0.0, 0.0)]

  /** Positions addTriangle may index buckets with: inside the world square. */
  predicate InWorld(p: Vec3) {
    0.0 <= p.x <= MAX_COORD as real && 0.0 <= p.y <= MAX_COORD as real
  }

  predicate PointsInWorld(p: Points) {
    InWorld(p[0]) && InWorld(p[1]) && InWorld(p[2])
  }

  /** z component of (b - a) x (c - a). */
  function CrossZ(a: Vec3, b: Vec3, c: Vec3): real {
    (b.x - a.x) * (c.y - a.y) - (b.y - a.y) * (c.x - a.x)
  }

  datatype Triangle = Triangle(v0: nat, v1: nat, v2: nat, biome: Biome) {
    function Corner(k: nat): nat
      requires k < 3
    {
      if k == 0 then v0 else if k == 1 then v1 else v2
    }

    /** The identity used by the triangle set: the ordered vertex triple (`equalTri`). */
    function Key(): (nat, nat, nat) { (v0, v1, v2) }

    predicate InRange(n: nat) { v0 < n && v1 < n && v2 < n }
  }

  /** A Vertex: its position, its list of adjacent triangles and the flag that says it is sorted. */
  datatype Vertex = Vertex(pos: Vec3, fan: seq<nat>, sorted: bool)

  datatype Mesh = Mesh(
    vertexAt: map<Vec3, nat>,
    verts: seq<Vertex>,
    triangleAt: map<(nat, nat, nat), nat>,
    tris: seq<Triangle>,
    buckets: seq<seq<seq<nat>>>)

  /** A freshly constructed level: NB_CHUNKS^2 chunks of GRID_SUBDIV^2 empty buckets. */
  function EmptyMesh(): Mesh {
    Mesh(map[], [], map[], [], seq(NB_CHUNKS * NB_CHUNKS, _ => seq(GRID_SUBDIV * GRID_SUBDIV, _ => [])))
  }

  // ---------------------------------------------------------------------------------------
  // Triangle::sortIndices
  // ---------------------------------------------------------------------------------------

  function Pos(verts: seq<Vertex>, t: Triangle, k: nat): Vec3
    requires t.InRange(|verts|) && k < 3
  {
    verts[t.Corner(k)].pos
  }

  /** `p` is the position of one of the corners of `t`. */
  predicate Touches(verts: seq<Vertex>, t: Triangle, p: Vec3)
    requires t.InRange(|verts|)
  {
    Pos(verts, t, 0) == p || Pos(verts, t, 1) == p || Pos(verts, t, 2) == p
  }

  /** The rotation of the corner indices that starts at the first corner placed at `refPoint`;
      None where the source prints "no match" and returns an undefined array. */
  function SortIndices(verts: seq<Vertex>, t: Triangle, refPoint: Vec3): (r: Option<(nat, nat, nat)>)
    requires t.InRange(|verts|)
    ensures r.Some? <==> Touches(verts, t, refPoint)
    ensures r.Some? ==> r.value.0 < 3 && Pos(verts, t, r.value.0) == refPoint
    ensures r.Some? ==> r.value.1 == (r.value.0 + 1) % 3 && r.value.2 == (r.value.0 + 2) % 3
    ensures r.Some? ==> forall k :: 0 <= k < r.value.0 ==> Pos(verts, t, k) != refPoint
  {
    if refPoint == Pos(verts, t, 0) then Some((0, 1, 2))
    else if refPoint == Pos(verts, t, 1) then Some((1, 2, 0))
    else if refPoint == Pos(verts, t, 2) then Some((2, 0, 1))
    else None
  }

  /** The vertex at position k of the rotation that starts at `p`: `t->vertices[srt[k]]`. */
  function Turn(verts: seq<Vertex>, t: Triangle, p: Vec3, k: nat): nat
    requires t.InRange(|verts|) && Touches(verts, t, p) && k < 3
  {
    var r := SortIndices(verts, t, p).value;
    t.Corner(if k == 0 then r.0 else if k == 1 then r.1 else r.2)
  }

  // ---------------------------------------------------------------------------------------
  // Vertex: the fan of adjacent triangles
  // ---------------------------------------------------------------------------------------

  /** Every triangle of `fan` exists and has a corner at `p`. */
  ghost predicate FanAround(verts: seq<Vertex>, tris: seq<Triangle>, fan: seq<nat>, p: Vec3) {
    forall t :: t in fan ==> t < |tris| && tris[t].InRange(|verts|) && Touches(verts, tris[t], p)
  }

  /** A fan without its last triangle is still a fan around the same point. */
  lemma FanInit(verts: seq<Vertex>, tris: seq<Triangle>, fan: seq<nat>, p: Vec3)
    requires FanAround(verts, tris, fan, p) && fan != []
    ensures FanAround(verts, tris, fan[..|fan| - 1], p)
  {
    forall u | u in fan[..|fan| - 1] ensures u in fan {
      var i :| 0 <= i < |fan| - 1 && fan[..|fan| - 1][i] == u;
      assert fan[i] == u;
    }
  }

  /** Position of the first occurrence of x (std::find). */
  function IndexOf(s: seq<nat>, x: nat): (i: nat)
    requires x in s
    ensures i < |s| && s[i] == x && forall j :: 0 <= j < i ==> s[j] != x
  {
    if s[0] == x then 0 else 1 + IndexOf(s[1..], x)
  }

  /** The fan is closed between its i-th triangle and its cyclic successor: the last vertex of the
      first (counted from the centre) is the second vertex of the next. */
  predicate Joined(verts: seq<Vertex>, tris: seq<Triangle>, vx: Vertex, i: nat)
    requires FanAround(verts, tris, vx.fan, vx.pos) && i < |vx.fan|
  {
    assert vx.fan[i] in vx.fan && vx.fan[(i + 1) % |vx.fan|] in vx.fan;
    Turn(verts, tris[vx.fan[i]], vx.pos, 2) == Turn(verts, tris[vx.fan[(i + 1) % |vx.fan|]], vx.pos, 1)
  }

  /** Vertex::getNextTri: the cyclic successor of `t` in the fan if the two share their edge. */
  function NextTri(verts: seq<Vertex>, tris: seq<Triangle>, vx: Vertex, t: nat): (r: Option<nat>)
    requires FanAround(verts, tris, vx.fan, vx.pos)
    ensures t !in vx.fan ==> r == None
    ensures t in vx.fan ==> (r.Some? <==> Joined(verts, tris, vx, IndexOf(vx.fan, t)))
    ensures r.Some? ==> r.value == vx.fan[(IndexOf(vx.fan, t) + 1) % |vx.fan|]
  {
    if t !in vx.fan then None
    else
      var i := IndexOf(vx.fan, t);
      var next := vx.fan[(i + 1) % |vx.fan|];
      assert next in vx.fan;
      if Turn(verts, tris[t], vx.pos, 2) != Turn(verts, tris[next], vx.pos, 1) then None
      else Some(next)
  }

  /** The first unclosed pair at or after position i. */
  function FirstGap(verts: seq<Vertex>, tris: seq<Triangle>, vx: Vertex, i: nat): (r: Option<nat>)
    requires FanAround(verts, tris, vx.fan, vx.pos) && i <= |vx.fan|
    ensures r.Some? ==> i <= r.value < |vx.fan| && !Joined(verts, tris, vx, r.value)
    ensures r.Some? ==> forall j :: i <= j < r.value ==> Joined(verts, tris, vx, j)
    ensures r.None? ==> forall j :: i <= j < |vx.fan| ==> Joined(verts, tris, vx, j)
    decreases |vx.fan| - i
  {
    if i == |vx.fan| then None
    else if !Joined(verts, tris, vx, i) then Some(i)
    else FirstGap(verts, tris, vx, i + 1)
  }

  /** Vertex::getBorder as a value: the positions on both sides of the first gap of the fan,
      or the zero pair (a default-constructed std::pair) when the fan is closed. */
  function Border(verts: seq<Vertex>, tris: seq<Triangle>, vx: Vertex): (Vec3, Vec3)
    requires FanAround(verts, tris, vx.fan, vx.pos) && |vx.fan| > 0
  {
    match FirstGap(verts, tris, vx, 0)
    case None => (Zero, Zero)
    case Some(i) => GapEnds(verts, tris, vx, i)
  }

  /** The positions on both sides of pair i of the fan: the last vertex of its i-th triangle and
      the second vertex of the next one. */
  function GapEnds(verts: seq<Vertex>, tris: seq<Triangle>, vx: Vertex, i: nat): (Vec3, Vec3)
    requires FanAround(verts, tris, vx.fan, vx.pos) && i < |vx.fan|
  {
    assert vx.fan[i] in vx.fan && vx.fan[(i + 1) % |vx.fan|] in vx.fan;
    (verts[Turn(verts, tris[vx.fan[i]], vx.pos, 2)].pos,
     verts[Turn(verts, tris[vx.fan[(i + 1) % |vx.fan|]], vx.pos, 1)].pos)
  }

  /** getBorder's two cases: the positions across the first pair that does not match, and the
      zero pair exactly when every pair matches. */
  lemma BorderCases(verts: seq<Vertex>, tris: seq<Triangle>, vx: Vertex)
    requires FanAround(verts, tris, vx.fan, vx.pos) && |vx.fan| > 0
    ensures (forall i :: 0 <= i < |vx.fan| ==> Joined(verts, tris, vx, i)) ==> Border(verts, tris, vx) == (Zero, Zero)
    ensures (exists i :: 0 <= i < |vx.fan| && !Joined(verts, tris, vx, i)) ==>
      exists i :: 0 <= i < |vx.fan| && !Joined(verts, tris, vx, i) &&
        (forall j :: 0 <= j < i ==> Joined(verts, tris, vx, j)) &&
        Border(verts, tris, vx) == GapEnds(verts, tris, vx, i)
  {
    var r := FirstGap(verts, tris, vx, 0);
    assert Border(verts, tris, vx) == if r.None? then (Zero, Zero) else GapEnds(verts, tris, vx, r.value);
    if r.Some? {
      var i := r.value;
      assert 0 <= i < |vx.fan| && !Joined(verts, tris, vx, i);
      assert forall j :: 0 <= j < i ==> Joined(verts, tris, vx, j);
    }
  }

  /** The fan walk: getNextTri finds no neighbour for a triangle of the fan exactly when its pair
      is unclosed, so getBorder then reports a gap at or before that triangle. */
  lemma NextTriNoneMeansGap(verts: seq<Vertex>, tris: seq<Triangle>, vx: Vertex, t: nat)
    requires FanAround(verts, tris, vx.fan, vx.pos) && t in vx.fan
    requires NextTri(verts, tris, vx, t) == None
    ensures FirstGap(verts, tris, vx, 0).Some?
    ensures FirstGap(verts, tris, vx, 0).value <= IndexOf(vx.fan, t)
  {
    var i := IndexOf(vx.fan, t);
    assert !Joined(verts, tris, vx, i);
  }

  /** A closed fan (no gap, so getBorder gives the zero pair) has a neighbour for every triangle. */
  lemma ClosedFanWalks(verts: seq<Vertex>, tris: seq<Triangle>, vx: Vertex, t: nat)
    requires FanAround(verts, tris, vx.fan, vx.pos) && t in vx.fan
    requires FirstGap(verts, tris, vx, 0) == None
    ensures NextTri(verts, tris, vx, t) == Some(vx.fan[(IndexOf(vx.fan, t) + 1) % |vx.fan|])
  {
    assert Joined(verts, tris, vx, IndexOf(vx.fan, t));
  }

  /** Vertex::addAdjacentTriangle. */
  function AddAdjacentTriangle(vx: Vertex, t: nat): (r: Vertex)
    ensures r.pos == vx.pos && r.fan == vx.fan + [t] && !r.sorted
  {
    vx.(fan := vx.fan + [t], sorted := false)
  }

  /** A triangle of the arena that has a corner at `p`, so that sortIndices finds its edges. */
  predicate HasCornerAt(verts: seq<Vertex>, tris: seq<Triangle>, p: Vec3, t: nat) {
    t < |tris| && tris[t].InRange(|verts|) && Touches(verts, tris[t], p)
  }

  /** The angle between (0,1) and the triangle's first edge out of `p`, as the vector library's
      `angle` gives it. */
  function EdgeAngle(verts: seq<Vertex>, tris: seq<Triangle>, p: Vec3, angle: (real, real) -> real, t: nat): real
    requires HasCornerAt(verts, tris, p, t)
  {
    var a := verts[Turn(verts, tris[t], p, 0)].pos;
    var b := verts[Turn(verts, tris[t], p, 1)].pos;
    angle(b.x - a.x, b.y - a.y)
  }

  /** The sort key of compTriClockwiseOrder: the edge angle with negative angles lifted by 360. */
  function ClockwiseKey(verts: seq<Vertex>, tris: seq<Triangle>, p: Vec3, angle: (real, real) -> real, t: nat): real
  {
    if HasCornerAt(verts, tris, p, t) then
      var d := EdgeAngle(verts, tris, p, angle, t);
      if d < 0.0 then d + 360.0 else d
    else 0.0
  }

  function ClockwiseLess(verts: seq<Vertex>, tris: seq<Triangle>, p: Vec3, angle: (real, real) -> real): (nat, nat) -> bool
  {
    (a: nat, b: nat) => ClockwiseKey(verts, tris, p, angle, a) < ClockwiseKey(verts, tris, p, angle, b)
  }

  lemma ClockwiseLessIsStrict(verts: seq<Vertex>, tris: seq<Triangle>, p: Vec3, angle: (real, real) -> real)
    ensures StrictOrder(ClockwiseLess(verts, tris, p, angle))
  {
  }

  /** What the lift by 360 does: for an edge angle in (-360, 360) the key is the angle in
      [0, 360) that equals it modulo a whole turn (there is only one), so the fan is ordered by the turn from (0,1)
      measured in one direction only. */
  lemma ClockwiseKeyInTurn(verts: seq<Vertex>, tris: seq<Triangle>, p: Vec3, angle: (real, real) -> real, t: nat)
    requires HasCornerAt(verts, tris, p, t)
    requires -360.0 < EdgeAngle(verts, tris, p, angle, t) < 360.0
    ensures var d, k := EdgeAngle(verts, tris, p, angle, t), ClockwiseKey(verts, tris, p, angle, t);
      0.0 <= k < 360.0 && (k == d || k == d + 360.0)
  {
  }

  /** Vertex::sortTriangles: sorts the fan clockwise unless the vertex is already sorted. */
  function SortTriangles(verts: seq<Vertex>, tris: seq<Triangle>, vx: Vertex, angle: (real, real) -> real): (r: Vertex)
    ensures r.pos == vx.pos && r.sorted
    ensures multiset(r.fan) == multiset(vx.fan)
    ensures vx.sorted ==> r == vx
  {
    if vx.sorted then vx
    else vx.(sorted := true, fan := SortBy(vx.fan, ClockwiseLess(verts, tris, vx.pos, angle)))
  }

  /** A sorted fan is a clockwise-ordered permutation of the unsorted one. */
  lemma SortTrianglesOrders(verts: seq<Vertex>, tris: seq<Triangle>, vx: Vertex, angle: (real, real) -> real)
    requires !vx.sorted
    ensures SortedBy(SortTriangles(verts, tris, vx, angle).fan, ClockwiseLess(verts, tris, vx.pos, angle))
  {
    ClockwiseLessIsStrict(verts, tris, vx.pos, angle);
    SortBySorted(vx.fan, ClockwiseLess(verts, tris, vx.pos, angle));
  }

  // ---------------------------------------------------------------------------------------
  // SubdivisionLevel::getSubChunkInfo
  // ---------------------------------------------------------------------------------------

  /** (chunk x, chunk y) and (subchunk x, subchunk y) of a point, by truncation. */
  datatype SubChunk = SubChunk(cx: nat, cy: nat, sx: nat, sy: nat)

  function ChunkOf(a: real): (c: nat)
    requires a >= 0.0
    ensures (c * CHUNK_SIZE) as real <= a < ((c + 1) * CHUNK_SIZE) as real
  {
    (a / CHUNK_SIZE as real).Floor
  }

  function SubOf(a: real, c: nat): (s: nat)
    requires (c * CHUNK_SIZE) as real <= a < ((c + 1) * CHUNK_SIZE) as real
    ensures s < GRID_SUBDIV
  {
    var d := a - c as real * CHUNK_SIZE as real;
    assert SUB_SIZE as real == 32.0 && CHUNK_SIZE as real == 256.0;
    assert 0.0 <= d < 256.0;
    var f := (d / 32.0).Floor;
    assert f as real <= d / 32.0 < 8.0;
    f
  }

  function GetSubChunkInfo(x: real, y: real): (r: SubChunk)
    requires x >= 0.0 && y >= 0.0
    ensures r.sx < GRID_SUBDIV && r.sy < GRID_SUBDIV
  {
    var cx := ChunkOf(x);
    var cy := ChunkOf(y);
    SubChunk(cx, cy, SubOf(x, cx), SubOf(y, cy))
  }

  /** Index of a subchunk column counted over the whole world: chunk * GRID_SUBDIV + subchunk. */
  function GlobalSub(c: nat, s: nat): nat { c * GRID_SUBDIV + s }

  /** getSubChunkInfo locates a coordinate in its subchunk: the global subchunk index is the
      number of whole subchunk widths below the coordinate. */
  lemma SubChunkInfoLocates(x: real, y: real)
    requires x >= 0.0 && y >= 0.0
    ensures var r := GetSubChunkInfo(x, y);
      (GlobalSub(r.cx, r.sx) * SUB_SIZE) as real <= x < ((GlobalSub(r.cx, r.sx) + 1) * SUB_SIZE) as real &&
      (GlobalSub(r.cy, r.sy) * SUB_SIZE) as real <= y < ((GlobalSub(r.cy, r.sy) + 1) * SUB_SIZE) as real
  {
    var r := GetSubChunkInfo(x, y);
    SubLocates(x, r.cx);
    SubLocates(y, r.cy);
  }

  lemma SubLocates(a: real, c: nat)
    requires a >= 0.0 && c == ChunkOf(a)
    ensures (GlobalSub(c, SubOf(a, c)) * SUB_SIZE) as real <= a < ((GlobalSub(c, SubOf(a, c)) + 1) * SUB_SIZE) as real
  {
    var s := SubOf(a, c);
    var d := a - c as real * 256.0;
    assert s as real <= d / 32.0 < s as real + 1.0;
    WidthsBelow(a, c, s);
  }

  /** Linear step of SubLocates: s whole subchunk widths into chunk c. */
  lemma WidthsBelow(a: real, c: nat, s: nat)
    requires s as real <= (a - c as real * 256.0) / 32.0 < s as real + 1.0
    ensures (GlobalSub(c, s) * SUB_SIZE) as real <= a < ((GlobalSub(c, s) + 1) * SUB_SIZE) as real
  {
    assert SUB_SIZE == 32 && GRID_SUBDIV == 8;
    assert GlobalSub(c, s) * SUB_SIZE == c * 256 + s * 32;
    assert (GlobalSub(c, s) + 1) * SUB_SIZE == c * 256 + s * 32 + 32;
  }

  // ---------------------------------------------------------------------------------------
  // Only positions matter
  // ---------------------------------------------------------------------------------------

  /** Two vertex arenas with the same positions; their fans and flags may differ. */
  ghost predicate SamePositions(verts: seq<Vertex>, verts': seq<Vertex>) {
    |verts| == |verts'| && forall v :: 0 <= v < |verts| ==> verts[v].pos == verts'[v].pos
  }

  lemma SamePositionsSymmetric(verts: seq<Vertex>, verts': seq<Vertex>)
    requires SamePositions(verts, verts')
    ensures SamePositions(verts', verts)
  {
  }

  /** What a fan reads of the arena (corners, rotations, the pairing of neighbours, the border
      and the sort key) is the same in two arenas with the same positions. */
  lemma FanAroundSame(verts: seq<Vertex>, verts': seq<Vertex>, tris: seq<Triangle>, fan: seq<nat>, p: Vec3)
    requires SamePositions(verts, verts') && FanAround(verts, tris, fan, p)
    ensures FanAround(verts', tris, fan, p)
  {
    forall t | t in fan ensures t < |tris| && tris[t].InRange(|verts'|) && Touches(verts', tris[t], p) {
      TouchesSame(verts, verts', tris[t], p);
    }
  }

  lemma TouchesSame(verts: seq<Vertex>, verts': seq<Vertex>, t: Triangle, p: Vec3)
    requires SamePositions(verts, verts') && t.InRange(|verts|)
    ensures Touches(verts', t, p) == Touches(verts, t, p)
    ensures forall k :: 0 <= k < 3 ==> Pos(verts', t, k) == Pos(verts, t, k)
    ensures SortIndices(verts', t, p) == SortIndices(verts, t, p)
  {
    assert verts'[t.v0].pos == verts[t.v0].pos && verts'[t.v1].pos == verts[t.v1].pos &&
      verts'[t.v2].pos == verts[t.v2].pos;
  }

  lemma TurnSame(verts: seq<Vertex>, verts': seq<Vertex>, t: Triangle, p: Vec3, k: nat)
    requires SamePositions(verts, verts') && t.InRange(|verts|) && Touches(verts, t, p) && k < 3
    ensures Touches(verts', t, p) && Turn(verts', t, p, k) == Turn(verts, t, p, k)
    ensures verts'[Turn(verts, t, p, k)].pos == verts[Turn(verts, t, p, k)].pos
  {
    TouchesSame(verts, verts', t, p);
  }

  lemma JoinedSame(verts: seq<Vertex>, verts': seq<Vertex>, tris: seq<Triangle>, vx: Vertex, i: nat)
    requires SamePositions(verts, verts') && FanAround(verts, tris, vx.fan, vx.pos) && i < |vx.fan|
    ensures FanAround(verts', tris, vx.fan, vx.pos)
    ensures Joined(verts', tris, vx, i) == Joined(verts, tris, vx, i)
  {
    FanAroundSame(verts, verts', tris, vx.fan, vx.pos);
    var a, b := vx.fan[i], vx.fan[(i + 1) % |vx.fan|];
    assert a in vx.fan && b in vx.fan;
    TurnSame(verts, verts', tris[a], vx.pos, 2);
    TurnSame(verts, verts', tris[b], vx.pos, 1);
  }

  lemma {:induction false} FirstGapSame(verts: seq<Vertex>, verts': seq<Vertex>, tris: seq<Triangle>, vx: Vertex, i: nat)
    requires SamePositions(verts, verts') && FanAround(verts, tris, vx.fan, vx.pos) && i <= |vx.fan|
    ensures FanAround(verts', tris, vx.fan, vx.pos)
    ensures FirstGap(verts', tris, vx, i) == FirstGap(verts, tris, vx, i)
    decreases |vx.fan| - i
  {
    FanAroundSame(verts, verts', tris, vx.fan, vx.pos);
    if i < |vx.fan| {
      JoinedSame(verts, verts', tris, vx, i);
      FirstGapSame(verts, verts', tris, vx, i + 1);
    }
  }

  lemma BorderSame(verts: seq<Vertex>, verts': seq<Vertex>, tris: seq<Triangle>, vx: Vertex)
    requires SamePositions(verts, verts') && FanAround(verts, tris, vx.fan, vx.pos) && |vx.fan| > 0
    ensures FanAround(verts', tris, vx.fan, vx.pos)
    ensures Border(verts', tris, vx) == Border(verts, tris, vx)
  {
    FirstGapSame(verts, verts', tris, vx, 0);
    match FirstGap(verts, tris, vx, 0)
    case None =>
    case Some(i) =>
      var a, b := vx.fan[i], vx.fan[(i + 1) % |vx.fan|];
      assert a in vx.fan && b in vx.fan;
      TurnSame(verts, verts', tris[a], vx.pos, 2);
      TurnSame(verts, verts', tris[b], vx.pos, 1);
  }

  lemma NextTriSame(verts: seq<Vertex>, verts': seq<Vertex>, tris: seq<Triangle>, vx: Vertex, t: nat)
    requires SamePositions(verts, verts') && FanAround(verts, tris, vx.fan, vx.pos)
    ensures FanAround(verts', tris, vx.fan, vx.pos)
    ensures NextTri(verts', tris, vx, t) == NextTri(verts, tris, vx, t)
  {
    FanAroundSame(verts, verts', tris, vx.fan, vx.pos);
    if t in vx.fan {
      JoinedSame(verts, verts', tris, vx, IndexOf(vx.fan, t));
    }
  }

  lemma ClockwiseKeySame(verts: seq<Vertex>, verts': seq<Vertex>, tris: seq<Triangle>, p: Vec3, angle: (real, real) -> real, t: nat)
    requires SamePositions(verts, verts')
    ensures ClockwiseKey(verts', tris, p, angle, t) == ClockwiseKey(verts, tris, p, angle, t)
  {
    if t < |tris| && tris[t].InRange(|verts|) {
      TouchesSame(verts, verts', tris[t], p);
      if Touches(verts, tris[t], p) {
        TurnSame(verts, verts', tris[t], p, 0);
        TurnSame(verts, verts', tris[t], p, 1);
      }
    }
  }

  /** Sorting a fan reads only positions. */
  lemma SortTrianglesSame(verts: seq<Vertex>, verts': seq<Vertex>, tris: seq<Triangle>, vx: Vertex, angle: (real, real) -> real)
    requires SamePositions(verts, verts')
    ensures SortTriangles(verts', tris, vx, angle) == SortTriangles(verts, tris, vx, angle)
  {
    var lt, lt' := ClockwiseLess(verts, tris, vx.pos, angle), ClockwiseLess(verts', tris, vx.pos, angle);
    forall a: nat, b: nat ensures lt'(a, b) == lt(a, b) {
      ClockwiseKeySame(verts, verts', tris, vx.pos, angle, a);
      ClockwiseKeySame(verts, verts', tris, vx.pos, angle, b);
    }
    SortBySame(vx.fan, lt, lt');
  }
}
