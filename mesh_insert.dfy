/**
  SubdivisionLevel::addTriangle as a function on the value model of a level, the well-formedness
  of a level that it preserves, and the properties the code promises about it: winding against
  +Z, reuse of vertices at equal positions, idempotence, and registration in exactly the
  subchunk buckets that the bounding box covers (src/terrain/terrainGeometry.cpp:148-208).
 */
module MeshInsert {
  import opened Wrappers
  import opened MeshModel

  // ---------------------------------------------------------------------------------------
  // Well-formed levels
  // ---------------------------------------------------------------------------------------

  /** `vertexAt` and the vertex arena describe the same positions, one vertex per position. */
  ghost predicate VerticesIndexed(m: Mesh) {
    (forall v :: 0 <= v < |m.verts| ==> m.verts[v].pos in m.vertexAt && m.vertexAt[m.verts[v].pos] == v) &&
    (forall p :: p in m.vertexAt ==> m.vertexAt[p] < |m.verts| && m.verts[m.vertexAt[p]].pos == p)
  }

  ghost predicate VerticesInWorld(m: Mesh) {
    forall v :: 0 <= v < |m.verts| ==> InWorld(m.verts[v].pos)
  }

  /** The triangle set and the triangle arena agree: one triangle per ordered vertex triple. */
  ghost predicate TrianglesIndexed(m: Mesh) {
    (forall t :: 0 <= t < |m.tris| ==>
       m.tris[t].InRange(|m.verts|) && m.tris[t].Key() in m.triangleAt && m.triangleAt[m.tris[t].Key()] == t) &&
    (forall k :: k in m.triangleAt ==> m.triangleAt[k] < |m.tris| && m.tris[m.triangleAt[k]].Key() == k)
  }

  /** Corner positions of the stored triangle t. */
  function TriPoints(m: Mesh, t: nat): Points
    requires t < |m.tris| && m.tris[t].InRange(|m.verts|)
  {
    [Pos(m.verts, m.tris[t], 0), Pos(m.verts, m.tris[t], 1), Pos(m.verts, m.tris[t], 2)]
  }

  /** The stored triangle t faces +Z: (v1 - v0) x (v2 - v0) has a non-negative z component. */
  ghost predicate WoundAt(m: Mesh, t: nat)
    requires t < |m.tris| && m.tris[t].InRange(|m.verts|)
  {
    var q := TriPoints(m, t); CrossZ(q[0], q[1], q[2]) >= 0.0
  }

  ghost predicate Wound(m: Mesh)
    requires TrianglesIndexed(m)
  {
    forall t :: 0 <= t < |m.tris| ==> WoundAt(m, t)
  }

  /** Vertex v has at least one adjacent triangle, and all of them have a corner at it. */
  ghost predicate FanOkAt(m: Mesh, v: nat)
    requires v < |m.verts|
  {
    |m.verts[v].fan| > 0 && FanAround(m.verts, m.tris, m.verts[v].fan, m.verts[v].pos)
  }

  ghost predicate FansOk(m: Mesh) {
    forall v :: 0 <= v < |m.verts| ==> FanOkAt(m, v)
  }

  ghost predicate BucketsShaped(b: seq<seq<seq<nat>>>) {
    |b| == NB_CHUNKS * NB_CHUNKS && forall c :: 0 <= c < |b| ==> |b[c]| == GRID_SUBDIV * GRID_SUBDIV
  }

  /** Triangle number t sits in bucket (c, s) once if it exists and its bounding box covers that
      subchunk, and not at all otherwise. */
  ghost predicate BucketExact(m: Mesh, c: nat, s: nat, t: nat)
    requires TrianglesIndexed(m) && VerticesInWorld(m) && BucketsShaped(m.buckets)
    requires c < |m.buckets| && s < GRID_SUBDIV * GRID_SUBDIV
  {
    multiset(m.buckets[c][s])[t] == if t < |m.tris| && Covers(TriBox(m, t), c, s) then 1 else 0
  }

  /** The spatial index is exact: BucketExact for every bucket and every number. */
  ghost predicate IndexExact(m: Mesh)
    requires TrianglesIndexed(m) && VerticesInWorld(m) && BucketsShaped(m.buckets)
  {
    forall c, s, t: nat :: 0 <= c < |m.buckets| && 0 <= s < GRID_SUBDIV * GRID_SUBDIV ==> BucketExact(m, c, s, t)
  }

  ghost predicate WellFormed(m: Mesh) {
    VerticesIndexed(m) && VerticesInWorld(m) && TrianglesIndexed(m) && Wound(m) && FansOk(m) &&
    BucketsShaped(m.buckets) && IndexExact(m)
  }

  lemma EmptyMeshWellFormed()
    ensures WellFormed(EmptyMesh())
  {
  }

  // ---------------------------------------------------------------------------------------
  // Bounding boxes and subchunk buckets
  // ---------------------------------------------------------------------------------------

  datatype Box = Box(lo: SubChunk, hi: SubChunk)

  function Min3(a: real, b: real, c: real): real {
    var bc := if c < b then c else b;
    if bc < a then bc else a
  }

  function Max3(a: real, b: real, c: real): real {
    var bc := if b < c then c else b;
    if a < bc then bc else a
  }

  /** A maximum lying on the far edge of the world is pulled back by one unit. */
  function ClampMax(a: real): real {
    if a == MAX_COORD as real then a - 1.0 else a
  }

  /** The subchunks of the bounding-box corners, as addTriangle computes them. */
  function BoxOf(q: Points): Box
    requires PointsInWorld(q)
  {
    Box(GetSubChunkInfo(Min3(q[0].x, q[1].x, q[2].x), Min3(q[0].y, q[1].y, q[2].y)),
        GetSubChunkInfo(ClampMax(Max3(q[0].x, q[1].x, q[2].x)), ClampMax(Max3(q[0].y, q[1].y, q[2].y))))
  }

  function TriBox(m: Mesh, t: nat): Box
    requires TrianglesIndexed(m) && VerticesInWorld(m) && t < |m.tris|
  {
    BoxOf(TriPoints(m, t))
  }

  /** Bucket s of chunk c (chunk index x * NB_CHUNKS + y, subchunk index k * GRID_SUBDIV + l) lies
      between the box corners on both axes, counting subchunks over the whole world. */
  predicate Covers(b: Box, c: nat, s: nat) {
    var i, j, k, l := c / NB_CHUNKS, c % NB_CHUNKS, s / GRID_SUBDIV, s % GRID_SUBDIV;
    GlobalSub(b.lo.cx, b.lo.sx) <= GlobalSub(i, k) <= GlobalSub(b.hi.cx, b.hi.sx) &&
    GlobalSub(b.lo.cy, b.lo.sy) <= GlobalSub(j, l) <= GlobalSub(b.hi.cy, b.hi.sy)
  }

  /** Appends t to every bucket the box covers. */
  function Register(b: seq<seq<seq<nat>>>, t: nat, box: Box): (r: seq<seq<seq<nat>>>)
    ensures |r| == |b| && forall c :: 0 <= c < |b| ==> |r[c]| == |b[c]|
  {
    seq(|b|, c requires 0 <= c < |b| =>
      seq(|b[c]|, s requires 0 <= s < |b[c]| => b[c][s] + if Covers(box, c, s) then [t] else []))
  }

  // ---------------------------------------------------------------------------------------
  // addTriangle
  // ---------------------------------------------------------------------------------------

  /** The winding fix: p[1] and p[2] are swapped when the face normal points below the plane. */
  function Oriented(p: Points): (q: Points)
    ensures CrossZ(q[0], q[1], q[2]) >= 0.0
    ensures q[0] == p[0] && multiset(q) == multiset(p)
    ensures (q[1] == p[1] && q[2] == p[2]) || (q[1] == p[2] && q[2] == p[1])
    ensures PointsInWorld(q) == PointsInWorld(p)
  {
    if CrossZ(p[0], p[1], p[2]) < 0.0 then
      CrossZSwap(p[0], p[1], p[2]);
      var q := [p[0], p[2], p[1]];
      assert multiset(q) == multiset{p[0], p[2], p[1]};
      assert multiset(p) == multiset{p[0], p[1], p[2]} by {
        assert p == [p[0], p[1], p[2]];
      }
      q
    else p
  }

  lemma CrossZSwap(a: Vec3, b: Vec3, c: Vec3)
    ensures CrossZ(a, c, b) == - CrossZ(a, b, c)
  {
    var u, v, w, z := b.x - a.x, c.y - a.y, b.y - a.y, c.x - a.x;
    assert CrossZ(a, b, c) == u * v - w * z;
    assert CrossZ(a, c, b) == z * w - v * u;
  }

  /** Inserts a vertex for p unless one is stored at exactly that position. */
  function WithVertex(m: Mesh, p: Vec3): (r: Mesh)
    requires VerticesIndexed(m)
    ensures VerticesIndexed(r) && p in r.vertexAt
    ensures r.tris == m.tris && r.triangleAt == m.triangleAt && r.buckets == m.buckets
    ensures |r.verts| >= |m.verts| && forall v :: 0 <= v < |m.verts| ==> r.verts[v] == m.verts[v]
    ensures forall a :: a in m.vertexAt ==> a in r.vertexAt && r.vertexAt[a] == m.vertexAt[a]
    ensures forall a :: a in r.vertexAt ==> a in m.vertexAt || a == p
    ensures forall v :: |m.verts| <= v < |r.verts| ==> r.verts[v].pos == p && r.verts[v].fan == []
    ensures p in m.vertexAt ==> r == m
  {
    if p in m.vertexAt then m
    else
      var r := m.(vertexAt := m.vertexAt[p := |m.verts|], verts := m.verts + [Vertex(p, [], false)]);
      assert forall v :: 0 <= v < |m.verts| ==> m.verts[v].pos != p;
      r
  }

  /** `a` is one of the first i corners of q. */
  predicate Among(a: Vec3, q: Points, i: nat) {
    (i > 0 && a == q[0]) || (i > 1 && a == q[1]) || (i > 2 && a == q[2])
  }

  /** The first i corners of q have vertices in m. */
  predicate Known(m: Mesh, q: Points, i: nat) {
    (i > 0 ==> q[0] in m.vertexAt) && (i > 1 ==> q[1] in m.vertexAt) && (i > 2 ==> q[2] in m.vertexAt)
  }

  /** The vertex loop of addTriangle over its first i iterations. */
  function WithCorners(m: Mesh, q: Points, i: nat): (r: Mesh)
    requires VerticesIndexed(m) && i <= 3
    ensures VerticesIndexed(r) && Known(r, q, i)
    ensures r.tris == m.tris && r.triangleAt == m.triangleAt && r.buckets == m.buckets
    ensures |r.verts| >= |m.verts| && forall v :: 0 <= v < |m.verts| ==> r.verts[v] == m.verts[v]
    ensures forall a :: a in m.vertexAt ==> a in r.vertexAt && r.vertexAt[a] == m.vertexAt[a]
    ensures forall a :: a in r.vertexAt ==> a in m.vertexAt || Among(a, q, i)
    ensures forall v :: |m.verts| <= v < |r.verts| ==> r.verts[v].fan == [] && Among(r.verts[v].pos, q, i)
    ensures Known(m, q, i) ==> r == m
  {
    if i == 0 then m
    else
      var m0 := WithCorners(m, q, i - 1);
      var r := WithVertex(m0, q[i - 1]);
      assert Known(m, q, i) ==> m0 == m && r == m0 by {
        if Known(m, q, i) {
          assert Known(m, q, i - 1);
          assert q[i - 1] in m0.vertexAt;
        }
      }
      assert forall v :: |m.verts| <= v < |r.verts| ==> r.verts[v].fan == [] && Among(r.verts[v].pos, q, i) by {
        forall v | |m.verts| <= v < |r.verts| ensures r.verts[v].fan == [] && Among(r.verts[v].pos, q, i) {
          if v < |m0.verts| {
            assert r.verts[v] == m0.verts[v];
          }
        }
      }
      r
  }

  /** `fan'` is `fan` followed by one or more copies of t. */
  predicate GrownBy(fan: seq<nat>, fan': seq<nat>, t: nat) {
    |fan'| > |fan| && fan'[..|fan|] == fan && forall i :: |fan| <= i < |fan'| ==> fan'[i] == t
  }

  /** addAdjacentTriangle for each listed vertex, in order. */
  function AdjoinAll(verts: seq<Vertex>, vs: seq<nat>, t: nat): (r: seq<Vertex>)
    requires forall i :: 0 <= i < |vs| ==> vs[i] < |verts|
    ensures |r| == |verts|
    ensures forall v :: 0 <= v < |verts| ==> r[v].pos == verts[v].pos
    ensures forall v :: 0 <= v < |verts| && v !in vs ==> r[v] == verts[v]
    ensures forall v :: 0 <= v < |verts| && v in vs ==> !r[v].sorted && GrownBy(verts[v].fan, r[v].fan, t)
  {
    if vs == [] then verts
    else
      var r0 := AdjoinAll(verts, vs[..|vs| - 1], t);
      var v := vs[|vs| - 1];
      assert forall u :: u in vs <==> u in vs[..|vs| - 1] || u == v;
      var r := r0[v := AddAdjacentTriangle(r0[v], t)];
      assert GrownBy(verts[v].fan, r[v].fan, t) by {
        if v in vs[..|vs| - 1] {
          assert r[v].fan[..|verts[v].fan|] == r0[v].fan[..|verts[v].fan|];
        } else {
          assert r0[v] == verts[v];
        }
      }
      r
  }

  /** The vertex triple of the triangle addTriangle builds, after the vertices are in place. */
  function KeyFor(m1: Mesh, q: Points): (nat, nat, nat)
    requires Known(m1, q, 3)
  {
    (m1.vertexAt[q[0]], m1.vertexAt[q[1]], m1.vertexAt[q[2]])
  }

  /** addTriangle(p, biome) on a well-formed level. */
  function AddTri(m: Mesh, p: Points, biome: Biome): Mesh
    requires VerticesIndexed(m) && PointsInWorld(p)
  {
    var q := Oriented(p);
    var m1 := WithCorners(m, q, 3);
    var key := KeyFor(m1, q);
    if key in m1.triangleAt then m1
    else StoreTriangle(m1, q, key, biome)
  }

  /** The new-triangle branch: the triangle is added to the set, to the fan of each of its
      vertices, and to the buckets its bounding box covers. */
  function StoreTriangle(m1: Mesh, q: Points, key: (nat, nat, nat), biome: Biome): Mesh
    requires key.0 < |m1.verts| && key.1 < |m1.verts| && key.2 < |m1.verts| && PointsInWorld(q)
  {
    var t := |m1.tris|;
    m1.(tris := m1.tris + [Triangle(key.0, key.1, key.2, biome)],
        triangleAt := m1.triangleAt[key := t],
        verts := AdjoinAll(m1.verts, [key.0, key.1, key.2], t),
        buckets := Register(m1.buckets, t, BoxOf(q)))
  }

  // ---------------------------------------------------------------------------------------
  // What addTriangle preserves and promises
  // ---------------------------------------------------------------------------------------

  /** `b` extends `a`: equally placed vertices and the same triangles up front. */
  ghost predicate Extends(a: Mesh, b: Mesh) {
    |a.verts| <= |b.verts| && |a.tris| <= |b.tris| &&
    (forall v :: 0 <= v < |a.verts| ==> b.verts[v].pos == a.verts[v].pos) &&
    (forall t :: 0 <= t < |a.tris| ==> b.tris[t] == a.tris[t])
  }

  lemma TriPointsStable(a: Mesh, b: Mesh, t: nat)
    requires Extends(a, b) && t < |a.tris| && a.tris[t].InRange(|a.verts|)
    ensures b.tris[t].InRange(|b.verts|) && TriPoints(b, t) == TriPoints(a, t)
  {
    var tr := a.tris[t];
    assert b.verts[tr.v0].pos == a.verts[tr.v0].pos;
    assert b.verts[tr.v1].pos == a.verts[tr.v1].pos;
    assert b.verts[tr.v2].pos == a.verts[tr.v2].pos;
  }

  lemma FanStable(a: Mesh, b: Mesh, fan: seq<nat>, p: Vec3)
    requires Extends(a, b) && FanAround(a.verts, a.tris, fan, p)
    ensures FanAround(b.verts, b.tris, fan, p)
  {
    forall t | t in fan ensures t < |b.tris| && b.tris[t].InRange(|b.verts|) && Touches(b.verts, b.tris[t], p) {
      TriPointsStable(a, b, t);
    }
  }

  lemma PointsEqual(a: Points, b: Points)
    requires a[0] == b[0] && a[1] == b[1] && a[2] == b[2]
    ensures a == b
  {
  }

  /** The arena and map part of well-formedness. */
  ghost predicate Placed(m: Mesh) {
    VerticesIndexed(m) && VerticesInWorld(m) && TrianglesIndexed(m)
  }

  /** The vertex loop keeps the arenas and maps consistent; new vertices have empty fans. */
  lemma VerticesAdded(m: Mesh, q: Points)
    requires Placed(m) && PointsInWorld(q)
    ensures var m1 := WithCorners(m, q, 3); Extends(m, m1) && Placed(m1)
  {
    var m1 := WithCorners(m, q, 3);
    forall v | 0 <= v < |m1.verts| ensures InWorld(m1.verts[v].pos) {
      if v >= |m.verts| {
        assert Among(m1.verts[v].pos, q, 3);
      }
    }
    forall t | 0 <= t < |m1.tris| ensures m1.tris[t].InRange(|m1.verts|) {
      assert m.tris[t].InRange(|m.verts|);
    }
  }

  /** The key's vertices sit at the corners, and the vertices the loop created are among them. */
  lemma KeyPlaced(m: Mesh, q: Points)
    requires VerticesIndexed(m)
    ensures var m1 := WithCorners(m, q, 3); var key := KeyFor(m1, q);
      key.0 < |m1.verts| && key.1 < |m1.verts| && key.2 < |m1.verts| &&
      m1.verts[key.0].pos == q[0] && m1.verts[key.1].pos == q[1] && m1.verts[key.2].pos == q[2] &&
      forall v :: |m.verts| <= v < |m1.verts| ==> IsCorner(key, v)
  {
    var m1 := WithCorners(m, q, 3);
    var key := KeyFor(m1, q);
    assert q[0] in m1.vertexAt && q[1] in m1.vertexAt && q[2] in m1.vertexAt;
    forall v | |m.verts| <= v < |m1.verts| ensures IsCorner(key, v) {
      assert Among(m1.verts[v].pos, q, 3);
    }
  }

  predicate IsCorner(key: (nat, nat, nat), v: nat) {
    v == key.0 || v == key.1 || v == key.2
  }

  /** A triangle that is already stored uses only existing vertices: the vertex loop did nothing. */
  lemma StoredKeyMeansNoNewVertex(m: Mesh, q: Points)
    requires Placed(m)
    requires var m1 := WithCorners(m, q, 3); KeyFor(m1, q) in m1.triangleAt
    ensures WithCorners(m, q, 3) == m
  {
    var m1 := WithCorners(m, q, 3);
    var key := KeyFor(m1, q);
    KeyPlaced(m, q);
    var t := m1.triangleAt[key];
    assert m.tris[t].Key() == key && m.tris[t].InRange(|m.verts|);
    assert m1.verts[key.0] == m.verts[key.0] && m1.verts[key.1] == m.verts[key.1] && m1.verts[key.2] == m.verts[key.2];
    assert Known(m, q, 3);
  }

  /** Bucket by bucket, Register adds one occurrence of t where the box covers, none elsewhere. */
  lemma RegisterCounts(b: seq<seq<seq<nat>>>, t: nat, box: Box, c: nat, s: nat, u: nat)
    requires c < |b| && s < |b[c]|
    ensures multiset(Register(b, t, box)[c][s])[u] ==
      multiset(b[c][s])[u] + if u == t && Covers(box, c, s) then 1 else 0
  {
    assert Register(b, t, box)[c][s] == b[c][s] + if Covers(box, c, s) then [t] else [];
  }

  /** Appending one triangle and registering its box keeps the index exact. */
  lemma IndexStep(m: Mesh, r: Mesh, box: Box)
    requires TrianglesIndexed(m) && VerticesInWorld(m) && BucketsShaped(m.buckets) && IndexExact(m)
    requires TrianglesIndexed(r) && VerticesInWorld(r) && Extends(m, r) && |r.tris| == |m.tris| + 1
    requires r.buckets == Register(m.buckets, |m.tris|, box) && TriBox(r, |m.tris|) == box
    ensures BucketsShaped(r.buckets) && IndexExact(r)
  {
    var t := |m.tris|;
    forall c, s, u: nat | 0 <= c < |r.buckets| && 0 <= s < GRID_SUBDIV * GRID_SUBDIV
      ensures BucketExact(r, c, s, u)
    {
      RegisterCounts(m.buckets, t, box, c, s, u);
      assert BucketExact(m, c, s, u);
      if u < t {
        TriPointsStable(m, r, u);
      }
    }
  }

  /** Appending one triangle that faces +Z keeps every triangle facing +Z. */
  lemma WoundStep(m: Mesh, r: Mesh)
    requires TrianglesIndexed(m) && Wound(m) && TrianglesIndexed(r) && Extends(m, r)
    requires |r.tris| == |m.tris| + 1 && WoundAt(r, |m.tris|)
    ensures Wound(r)
  {
    forall u | 0 <= u < |r.tris| ensures WoundAt(r, u) {
      if u < |m.tris| {
        assert WoundAt(m, u);
        TriPointsStable(m, r, u);
      }
    }
  }

  /** Adjoining triangle t to the fans of its corner vertices keeps every fan around its vertex;
      new vertices (empty fans) are among the corners, so their fans become non-empty. */
  lemma FansStep(m: Mesh, m1: Mesh, r: Mesh, key: (nat, nat, nat), t: nat)
    requires FansOk(m) && Extends(m, r) && |m1.verts| == |r.verts|
    requires key.0 < |m1.verts| && key.1 < |m1.verts| && key.2 < |m1.verts|
    requires forall v :: 0 <= v < |m.verts| ==> m1.verts[v] == m.verts[v]
    requires forall v :: |m.verts| <= v < |m1.verts| ==> m1.verts[v].fan == [] && IsCorner(key, v)
    requires r.verts == AdjoinAll(m1.verts, [key.0, key.1, key.2], t)
    requires t < |r.tris| && r.tris[t] == Triangle(key.0, key.1, key.2, r.tris[t].biome)
    ensures FansOk(r)
  {
    var ks := [key.0, key.1, key.2];
    forall v | 0 <= v < |r.verts| ensures FanOkAt(r, v) {
      var pv := r.verts[v].pos;
      var f := m1.verts[v].fan;
      if v < |m.verts| {
        assert FanOkAt(m, v);
        FanStable(m, r, f, pv);
      } else {
        assert IsCorner(key, v);
      }
      assert FanAround(r.verts, r.tris, f, pv);
      if v in ks {
        assert IsCorner(key, v);
        assert Touches(r.verts, r.tris[t], pv);
        FanGrown(r.verts, r.tris, f, r.verts[v].fan, t, pv);
      }
    }
  }

  /** A fan around p grown by copies of a triangle with a corner at p is still a fan around p. */
  lemma FanGrown(verts: seq<Vertex>, tris: seq<Triangle>, f: seq<nat>, f': seq<nat>, t: nat, p: Vec3)
    requires FanAround(verts, tris, f, p) && GrownBy(f, f', t)
    requires t < |tris| && tris[t].InRange(|verts|) && Touches(verts, tris[t], p)
    ensures FanAround(verts, tris, f', p)
  {
    forall e | e in f' ensures e < |tris| && tris[e].InRange(|verts|) && Touches(verts, tris[e], p) {
      var i :| 0 <= i < |f'| && f'[i] == e;
      if i < |f| {
        assert f[i] == e && f[i] in f;
      }
    }
  }

  /** The triangle addTriangle builds for q is not stored yet. */
  ghost predicate Fresh(m: Mesh, q: Points)
    requires VerticesIndexed(m)
  {
    var m1 := WithCorners(m, q, 3);
    KeyFor(m1, q) !in m1.triangleAt
  }

  /** The new-triangle branch of addTriangle. */
  function Stored(m: Mesh, q: Points, biome: Biome): Mesh
    requires VerticesIndexed(m) && PointsInWorld(q)
  {
    var m1 := WithCorners(m, q, 3);
    KeyPlaced(m, q);
    StoreTriangle(m1, q, KeyFor(m1, q), biome)
  }

  lemma StoredShape(m: Mesh, q: Points, biome: Biome)
    requires Placed(m) && PointsInWorld(q)
    ensures var r := Stored(m, q, biome);
      Extends(m, r) && |r.tris| == |m.tris| + 1 && r.tris[|m.tris|].InRange(|r.verts|) &&
      TriPoints(r, |m.tris|) == q && r.tris[|m.tris|] == Triangle(r.vertexAt[q[0]], r.vertexAt[q[1]], r.vertexAt[q[2]], biome)
  {
    var m1 := WithCorners(m, q, 3);
    KeyPlaced(m, q);
    var key := KeyFor(m1, q);
    var r := StoreTriangle(m1, q, key, biome);
    assert r == Stored(m, q, biome);
    VerticesAdded(m, q);
    StoreTriangleShape(m1, q, key, biome);
    ExtendsTrans(m, m1, r);
    var w := TriPoints(r, |m.tris|);
    assert w[0] == q[0] && w[1] == q[1] && w[2] == q[2];
    PointsEqual(w, q);
  }

  /** Storing a triangle appends it and moves no vertex. */
  lemma StoreTriangleShape(m1: Mesh, q: Points, key: (nat, nat, nat), biome: Biome)
    requires key.0 < |m1.verts| && key.1 < |m1.verts| && key.2 < |m1.verts| && PointsInWorld(q)
    ensures var r := StoreTriangle(m1, q, key, biome);
      Extends(m1, r) && |r.verts| == |m1.verts| && |r.tris| == |m1.tris| + 1 && r.vertexAt == m1.vertexAt &&
      r.tris[|m1.tris|] == Triangle(key.0, key.1, key.2, biome)
  {
  }

  lemma ExtendsTrans(a: Mesh, b: Mesh, c: Mesh)
    requires Extends(a, b) && Extends(b, c)
    ensures Extends(a, c)
  {
  }

  lemma StoredIndexed(m: Mesh, q: Points, biome: Biome)
    requires Placed(m) && PointsInWorld(q) && Fresh(m, q)
    ensures Placed(Stored(m, q, biome))
  {
    StoredVertices(m, q, biome);
    StoredTriangles(m, q, biome);
  }

  lemma StoredTriangles(m: Mesh, q: Points, biome: Biome)
    requires Placed(m) && PointsInWorld(q) && Fresh(m, q)
    ensures TrianglesIndexed(Stored(m, q, biome))
  {
    var m1 := WithCorners(m, q, 3);
    VerticesAdded(m, q);
    KeyPlaced(m, q);
    StoredTrianglesIndexed(m1, q, KeyFor(m1, q), biome);
  }

  lemma StoredVertices(m: Mesh, q: Points, biome: Biome)
    requires Placed(m) && PointsInWorld(q)
    ensures VerticesIndexed(Stored(m, q, biome)) && VerticesInWorld(Stored(m, q, biome))
  {
    var m1 := WithCorners(m, q, 3);
    VerticesAdded(m, q);
    KeyPlaced(m, q);
    var key := KeyFor(m1, q);
    var r := StoreTriangle(m1, q, key, biome);
    assert r == Stored(m, q, biome);
    StoreTriangleShape(m1, q, key, biome);
    SamePlaces(m1, r);
  }

  /** Vertices that keep their positions and their map keep it consistent and in the world. */
  lemma SamePlaces(a: Mesh, b: Mesh)
    requires VerticesIndexed(a) && VerticesInWorld(a)
    requires Extends(a, b) && |b.verts| == |a.verts| && b.vertexAt == a.vertexAt
    ensures VerticesIndexed(b) && VerticesInWorld(b)
  {
  }

  /** Appending a triangle under a key not used before keeps the set and the arena in step. */
  lemma StoredTrianglesIndexed(m1: Mesh, q: Points, key: (nat, nat, nat), biome: Biome)
    requires TrianglesIndexed(m1) && key !in m1.triangleAt && PointsInWorld(q)
    requires key.0 < |m1.verts| && key.1 < |m1.verts| && key.2 < |m1.verts|
    ensures TrianglesIndexed(StoreTriangle(m1, q, key, biome))
  {
    var r := StoreTriangle(m1, q, key, biome);
    var t := |m1.tris|;
    forall u | 0 <= u < |r.tris|
      ensures r.tris[u].InRange(|r.verts|) && r.tris[u].Key() in r.triangleAt && r.triangleAt[r.tris[u].Key()] == u
    {
      if u < t {
        var k := m1.tris[u].Key();
        assert r.tris[u] == m1.tris[u];
        assert k in m1.triangleAt && k != key;
      }
    }
    forall k | k in r.triangleAt ensures r.triangleAt[k] < |r.tris| && r.tris[r.triangleAt[k]].Key() == k {
      if k != key {
        assert k in m1.triangleAt;
        assert r.tris[m1.triangleAt[k]] == m1.tris[m1.triangleAt[k]];
      }
    }
  }

  lemma StoredFans(m: Mesh, q: Points, biome: Biome)
    requires Placed(m) && FansOk(m) && PointsInWorld(q)
    ensures FansOk(Stored(m, q, biome))
  {
    var m1 := WithCorners(m, q, 3);
    KeyPlaced(m, q);
    var key := KeyFor(m1, q);
    var r := Stored(m, q, biome);
    StoredShape(m, q, biome);
    assert r == StoreTriangle(m1, q, key, biome);
    FansStep(m, m1, r, key, |m.tris|);
  }

  lemma StoredWound(m: Mesh, q: Points, biome: Biome)
    requires Placed(m) && Wound(m) && PointsInWorld(q) && Fresh(m, q) && CrossZ(q[0], q[1], q[2]) >= 0.0
    ensures Placed(Stored(m, q, biome)) && Wound(Stored(m, q, biome))
  {
    var r := Stored(m, q, biome);
    StoredShape(m, q, biome);
    StoredIndexed(m, q, biome);
    assert WoundAt(r, |m.tris|);
    WoundStep(m, r);
  }

  lemma StoredIndex(m: Mesh, q: Points, biome: Biome)
    requires Placed(m) && BucketsShaped(m.buckets) && IndexExact(m) && PointsInWorld(q) && Fresh(m, q)
    ensures Placed(Stored(m, q, biome)) && BucketsShaped(Stored(m, q, biome).buckets) && IndexExact(Stored(m, q, biome))
  {
    var r := Stored(m, q, biome);
    StoredShape(m, q, biome);
    StoredIndexed(m, q, biome);
    assert r.buckets == Register(m.buckets, |m.tris|, BoxOf(q));
    assert TriBox(r, |m.tris|) == BoxOf(q);
    IndexStep(m, r, BoxOf(q));
  }

  /** The new-triangle branch keeps the level well formed. */
  lemma StoredWellFormed(m: Mesh, q: Points, biome: Biome)
    requires WellFormed(m) && PointsInWorld(q) && Fresh(m, q) && CrossZ(q[0], q[1], q[2]) >= 0.0
    ensures WellFormed(Stored(m, q, biome))
  {
    StoredIndexed(m, q, biome);
    StoredFans(m, q, biome);
    StoredWound(m, q, biome);
    StoredIndex(m, q, biome);
  }

  // ---------------------------------------------------------------------------------------
  // addTriangle as a whole
  // ---------------------------------------------------------------------------------------

  /** addTriangle keeps a level well formed. */
  lemma AddTriWellFormed(m: Mesh, p: Points, biome: Biome)
    requires WellFormed(m) && PointsInWorld(p)
    ensures WellFormed(AddTri(m, p, biome))
  {
    var q := Oriented(p);
    var m1 := WithCorners(m, q, 3);
    if KeyFor(m1, q) in m1.triangleAt {
      StoredKeyMeansNoNewVertex(m, q);
    } else {
      StoredWellFormed(m, q, biome);
      assert AddTri(m, p, biome) == Stored(m, q, biome);
    }
  }

  /** After addTriangle the triangle is stored, with its corners in the fixed winding order: the
      same three positions, and a face normal with non-negative z. */
  lemma AddTriStores(m: Mesh, p: Points, biome: Biome)
    requires WellFormed(m) && PointsInWorld(p)
    ensures var r := AddTri(m, p, biome); var q := Oriented(p);
      WellFormed(r) && Known(r, q, 3) && KeyFor(r, q) in r.triangleAt &&
      var w := TriPoints(r, r.triangleAt[KeyFor(r, q)]);
      w == q && CrossZ(w[0], w[1], w[2]) >= 0.0 && multiset(w) == multiset(p)
  {
    AddTriWellFormed(m, p, biome);
    var q := Oriented(p);
    var m1 := WithCorners(m, q, 3);
    var r := AddTri(m, p, biome);
    KeyPlaced(m, q);
    var key := KeyFor(m1, q);
    if key in m1.triangleAt {
      StoredKeyMeansNoNewVertex(m, q);
      var t := m.triangleAt[key];
      assert m.tris[t].Key() == key;
      var w := TriPoints(r, t);
      assert w[0] == q[0] && w[1] == q[1] && w[2] == q[2];
      PointsEqual(w, q);
    } else {
      StoredShape(m, q, biome);
      assert r == Stored(m, q, biome);
      assert r.vertexAt == m1.vertexAt;
      assert r.triangleAt[key] == |m.tris|;
    }
  }

  /** addTriangle reuses the vertex at an exactly equal position and adds vertices only for the
      three corners; existing vertices keep their positions. */
  lemma AddTriReusesVertices(m: Mesh, p: Points, biome: Biome)
    requires WellFormed(m) && PointsInWorld(p)
    ensures var r := AddTri(m, p, biome);
      (forall a :: a in m.vertexAt ==> a in r.vertexAt && r.vertexAt[a] == m.vertexAt[a]) &&
      (forall a :: a in r.vertexAt <==> a in m.vertexAt || a == p[0] || a == p[1] || a == p[2]) &&
      Extends(m, r)
  {
    var q := Oriented(p);
    var m1 := WithCorners(m, q, 3);
    var r := AddTri(m, p, biome);
    if KeyFor(m1, q) in m1.triangleAt {
      StoredKeyMeansNoNewVertex(m, q);
    } else {
      StoredShape(m, q, biome);
      assert r == Stored(m, q, biome);
    }
    assert r.vertexAt == m1.vertexAt;
    forall a ensures a in r.vertexAt <==> a in m.vertexAt || a == p[0] || a == p[1] || a == p[2] {
      assert a in r.vertexAt ==> a in m.vertexAt || Among(a, q, 3);
    }
  }

  /** Re-inserting a stored triangle changes nothing: no vertex, no fan, no bucket. The biome
      passed with it is ignored, since the triangle set compares vertex triples only. */
  lemma AddTriExisting(m: Mesh, p: Points, biome: Biome)
    requires WellFormed(m) && PointsInWorld(p)
    requires Known(m, Oriented(p), 3) && KeyFor(m, Oriented(p)) in m.triangleAt
    ensures AddTri(m, p, biome) == m
  {
  }

  /** addTriangle is idempotent, whatever biome the second call carries. */
  lemma AddTriIdempotent(m: Mesh, p: Points, biome: Biome, biome': Biome)
    requires WellFormed(m) && PointsInWorld(p)
    ensures WellFormed(AddTri(m, p, biome))
    ensures AddTri(AddTri(m, p, biome), p, biome') == AddTri(m, p, biome)
  {
    AddTriStores(m, p, biome);
    AddTriExisting(AddTri(m, p, biome), p, biome');
  }

  lemma CornerListed(key: (nat, nat, nat), v: nat)
    ensures v in [key.0, key.1, key.2] <==> IsCorner(key, v)
  {
    var ks := [key.0, key.1, key.2];
    if v in ks {
      var i :| 0 <= i < 3 && ks[i] == v;
    }
  }

  /** A new triangle is appended with its biome, adjoined (unsorted) to the fans of its corner
      vertices and to no other, and appended to exactly the covered buckets. A vertex created for
      it has a fan made of it alone (twice or three times for a degenerate triangle). */
  lemma AddTriNew(m: Mesh, p: Points, biome: Biome)
    requires WellFormed(m) && PointsInWorld(p) && Fresh(m, Oriented(p))
    ensures var r := AddTri(m, p, biome); var t := |m.tris|;
      |r.tris| == t + 1 && r.tris[..t] == m.tris && r.tris[t].biome == biome &&
      r.tris[t].InRange(|r.verts|) && TriPoints(r, t) == Oriented(p) &&
      var k := r.tris[t].Key();
      (forall v :: 0 <= v < |m.verts| && !IsCorner(k, v) ==> r.verts[v] == m.verts[v]) &&
      (forall v :: 0 <= v < |r.verts| && IsCorner(k, v) ==>
         !r.verts[v].sorted && GrownBy(if v < |m.verts| then m.verts[v].fan else [], r.verts[v].fan, t)) &&
      (forall v :: |m.verts| <= v < |r.verts| ==> IsCorner(k, v))
  {
    var q := Oriented(p);
    var m1 := WithCorners(m, q, 3);
    var key := KeyFor(m1, q);
    KeyPlaced(m, q);
    StoredShape(m, q, biome);
    var r := AddTri(m, p, biome);
    assert r == Stored(m, q, biome);
    NewFans(m, m1, r.verts, key, |m.tris|);
  }

  /** The new triangle is appended to the end of exactly the buckets its bounding box covers. */
  lemma AddTriNewBuckets(m: Mesh, p: Points, biome: Biome)
    requires WellFormed(m) && PointsInWorld(p) && Fresh(m, Oriented(p))
    ensures var r := AddTri(m, p, biome);
      |r.buckets| == |m.buckets| &&
      forall c, s :: 0 <= c < |m.buckets| && 0 <= s < |m.buckets[c]| ==>
        r.buckets[c][s] == m.buckets[c][s] + if Covers(BoxOf(Oriented(p)), c, s) then [|m.tris|] else []
  {
    var r := AddTri(m, p, biome);
    assert r == Stored(m, Oriented(p), biome);
  }

  lemma NewFans(m: Mesh, m1: Mesh, verts: seq<Vertex>, key: (nat, nat, nat), t: nat)
    requires key.0 < |m1.verts| && key.1 < |m1.verts| && key.2 < |m1.verts| && |m.verts| <= |m1.verts|
    requires forall v :: 0 <= v < |m.verts| ==> m1.verts[v] == m.verts[v]
    requires forall v :: |m.verts| <= v < |m1.verts| ==> m1.verts[v].fan == []
    requires verts == AdjoinAll(m1.verts, [key.0, key.1, key.2], t)
    ensures forall v :: 0 <= v < |m.verts| && !IsCorner(key, v) ==> verts[v] == m.verts[v]
    ensures forall v :: 0 <= v < |verts| && IsCorner(key, v) ==>
      !verts[v].sorted && GrownBy(if v < |m.verts| then m.verts[v].fan else [], verts[v].fan, t)
  {
    forall v | 0 <= v < |verts| {
      CornerListed(key, v);
    }
  }
}
