/**
  The read-only bucket queries of a subdivision level (src/terrain/terrainGeometry.cpp:324-423):
  isOcean, getTrianglesNearPos, getBiome, and the specifications of the two list-building
  queries getTrianglesInChunk and getVertices, whose loops are in the SubdivisionLevel class.
 */
module MeshQuery {
  import opened Sorting
  import opened MeshModel
  import opened MeshInsert
  import opened Seqs

  // ---------------------------------------------------------------------------------------
  // Bucket coordinates
  // ---------------------------------------------------------------------------------------

  /** Points whose buckets exist: getSubChunkInfo of a coordinate equal to MAX_COORD would name
      chunk NB_CHUNKS, one past the end of `_trianglesInSubChunk`. */
  predicate OnMap(x: real, y: real) {
    0.0 <= x < MAX_COORD as real && 0.0 <= y < MAX_COORD as real
  }

  /** Row of `_trianglesInSubChunk` for chunk (x, y). */
  function ChunkIndex(x: nat, y: nat): nat { x * NB_CHUNKS + y }

  /** Chunk row and bucket of the point (x, y), as getTrianglesNearPos indexes them. */
  function NearChunk(x: real, y: real): (c: nat)
    requires OnMap(x, y)
    ensures c < NB_CHUNKS * NB_CHUNKS
  {
    var r := GetSubChunkInfo(x, y);
    ChunkLimit(x);
    ChunkLimit(y);
    ChunkIndex(r.cx, r.cy)
  }

  function NearSub(x: real, y: real): (s: nat)
    requires OnMap(x, y)
    ensures s < GRID_SUBDIV * GRID_SUBDIV
  {
    var r := GetSubChunkInfo(x, y);
    r.sx * GRID_SUBDIV + r.sy
  }

  lemma ChunkLimit(a: real)
    requires 0.0 <= a < MAX_COORD as real
    ensures ChunkOf(a) < NB_CHUNKS
  {
    var c := ChunkOf(a);
    assert (c * CHUNK_SIZE) as real <= a;
    assert c * CHUNK_SIZE < NB_CHUNKS * CHUNK_SIZE;
  }

  /** The global subchunk index is monotone in the coordinate. */
  lemma GlobalSubMonotone(a: real, b: real)
    requires 0.0 <= a <= b
    ensures GlobalSub(ChunkOf(a), SubOf(a, ChunkOf(a))) <= GlobalSub(ChunkOf(b), SubOf(b, ChunkOf(b)))
  {
    SubLocates(a, ChunkOf(a));
    SubLocates(b, ChunkOf(b));
    FloorOrder(GlobalSub(ChunkOf(a), SubOf(a, ChunkOf(a))), GlobalSub(ChunkOf(b), SubOf(b, ChunkOf(b))), a, b);
  }

  lemma FloorOrder(ga: nat, gb: nat, a: real, b: real)
    requires (ga * SUB_SIZE) as real <= a <= b < ((gb + 1) * SUB_SIZE) as real
    ensures ga <= gb
  {
    assert SUB_SIZE == 32;
    assert ga * 32 < (gb + 1) * 32;
  }

  /** A coordinate strictly below MAX_COORD lies in a subchunk no further than the one of
      MAX_COORD - 1, which is where addTriangle pulls a maximum on the far edge. */
  lemma GlobalSubBelowEdge(a: real)
    requires 0.0 <= a < MAX_COORD as real
    ensures GlobalSub(ChunkOf(a), SubOf(a, ChunkOf(a))) <=
      GlobalSub(ChunkOf(ClampMax(MAX_COORD as real)), SubOf(ClampMax(MAX_COORD as real), ChunkOf(ClampMax(MAX_COORD as real))))
  {
    var e := ClampMax(MAX_COORD as real);
    SubLocates(a, ChunkOf(a));
    SubLocates(e, ChunkOf(e));
    var ga := GlobalSub(ChunkOf(a), SubOf(a, ChunkOf(a)));
    var ge := GlobalSub(ChunkOf(e), SubOf(e, ChunkOf(e)));
    assert ge * SUB_SIZE <= 4095 < (ge + 1) * SUB_SIZE;
    assert ge == 127;
    assert ga * SUB_SIZE < 4096;
  }

  /** One axis: a coordinate between the smallest and largest corner coordinate lies between the
      global subchunks of the bounding-box corners. */
  lemma AxisCovered(lo: real, hi: real, a: real)
    requires 0.0 <= lo <= a <= hi <= MAX_COORD as real && a < MAX_COORD as real
    ensures GlobalSub(ChunkOf(lo), SubOf(lo, ChunkOf(lo))) <= GlobalSub(ChunkOf(a), SubOf(a, ChunkOf(a)))
    ensures GlobalSub(ChunkOf(a), SubOf(a, ChunkOf(a))) <= GlobalSub(ChunkOf(ClampMax(hi)), SubOf(ClampMax(hi), ChunkOf(ClampMax(hi))))
  {
    GlobalSubMonotone(lo, a);
    if hi == MAX_COORD as real {
      GlobalSubBelowEdge(a);
    } else {
      GlobalSubMonotone(a, hi);
    }
  }

  /** Every point of a triangle's bounding box (short of the far edges) lies in a bucket the
      triangle was registered in: that is what the bucket loops of addTriangle are for. */
  lemma BoxCoversPoint(q: Points, x: real, y: real)
    requires PointsInWorld(q) && OnMap(x, y)
    requires Min3(q[0].x, q[1].x, q[2].x) <= x <= Max3(q[0].x, q[1].x, q[2].x)
    requires Min3(q[0].y, q[1].y, q[2].y) <= y <= Max3(q[0].y, q[1].y, q[2].y)
    ensures Covers(BoxOf(q), NearChunk(x, y), NearSub(x, y))
  {
    var r := GetSubChunkInfo(x, y);
    ChunkLimit(x);
    ChunkLimit(y);
    var c, s := NearChunk(x, y), NearSub(x, y);
    assert c / NB_CHUNKS == r.cx && c % NB_CHUNKS == r.cy;
    assert s / GRID_SUBDIV == r.sx && s % GRID_SUBDIV == r.sy;
    AxisCovered(Min3(q[0].x, q[1].x, q[2].x), Max3(q[0].x, q[1].x, q[2].x), x);
    AxisCovered(Min3(q[0].y, q[1].y, q[2].y), Max3(q[0].y, q[1].y, q[2].y), y);
  }

  // ---------------------------------------------------------------------------------------
  // getTrianglesNearPos
  // ---------------------------------------------------------------------------------------

  /** The bucket of the subchunk holding (x, y). */
  function NearTriangles(m: Mesh, x: real, y: real): seq<nat>
    requires BucketsShaped(m.buckets) && OnMap(x, y)
  {
    m.buckets[NearChunk(x, y)][NearSub(x, y)]
  }

  /** On a well-formed level, getTrianglesNearPos lists each triangle whose bounding box covers
      the point's subchunk exactly once, and no other. */
  lemma NearTrianglesExact(m: Mesh, x: real, y: real, t: nat)
    requires WellFormed(m) && OnMap(x, y)
    ensures multiset(NearTriangles(m, x, y))[t] ==
      if t < |m.tris| && Covers(TriBox(m, t), NearChunk(x, y), NearSub(x, y)) then 1 else 0
  {
    assert BucketExact(m, NearChunk(x, y), NearSub(x, y), t);
  }

  /** The point's bounding box, in the order the code takes minima and maxima. */
  predicate InBox(q: Points, x: real, y: real) {
    Min3(q[0].x, q[1].x, q[2].x) <= x <= Max3(q[0].x, q[1].x, q[2].x) &&
    Min3(q[0].y, q[1].y, q[2].y) <= y <= Max3(q[0].y, q[1].y, q[2].y)
  }

  /** Every stored triangle whose bounding box contains the point is listed. */
  lemma NearTrianglesComplete(m: Mesh, x: real, y: real, t: nat)
    requires WellFormed(m) && OnMap(x, y)
    requires t < |m.tris| && InBox(TriPoints(m, t), x, y)
    ensures t in NearTriangles(m, x, y)
  {
    BoxCoversPoint(TriPoints(m, t), x, y);
    NearTrianglesExact(m, x, y, t);
  }

  // ---------------------------------------------------------------------------------------
  // getBiome
  // ---------------------------------------------------------------------------------------

  /** The common denominator of the two barycentric coordinates. */
  function Den(q: Points): real {
    (q[1].y - q[2].y) * (q[0].x - q[2].x) + (q[2].x - q[1].x) * (q[0].y - q[2].y)
  }

  /** The barycentric test of getBiome: s, t and s + t in [0, 1]. With a zero denominator the
      float division gives an infinity or NaN, and every comparison with those fails. */
  predicate Hits(q: Points, x: real, y: real) {
    var den := Den(q);
    den != 0.0 &&
    var s := ((q[1].y - q[2].y) * (x - q[2].x) + (q[2].x - q[1].x) * (y - q[2].y)) / den;
    var t := ((q[2].y - q[0].y) * (x - q[2].x) + (q[0].x - q[2].x) * (y - q[2].y)) / den;
    0.0 <= s <= 1.0 && 0.0 <= t <= 1.0 && s + t <= 1.0
  }

  /** The barycentric coordinates reconstruct the point: (x, y) = s q0 + t q1 + (1 - s - t) q2. */
  lemma Barycentric(q: Points, x: real, y: real)
    requires Den(q) != 0.0
    ensures var den := Den(q);
      var s := ((q[1].y - q[2].y) * (x - q[2].x) + (q[2].x - q[1].x) * (y - q[2].y)) / den;
      var t := ((q[2].y - q[0].y) * (x - q[2].x) + (q[0].x - q[2].x) * (y - q[2].y)) / den;
      x - q[2].x == s * (q[0].x - q[2].x) + t * (q[1].x - q[2].x) &&
      y - q[2].y == s * (q[0].y - q[2].y) + t * (q[1].y - q[2].y)
  {
    var a, b, c, d := q[0].x - q[2].x, q[0].y - q[2].y, q[1].x - q[2].x, q[1].y - q[2].y;
    var u, v := x - q[2].x, y - q[2].y;
    var den := Den(q);
    assert den == d * a - c * b;
    var sn, tn := d * u - c * v, a * v - b * u;
    assert sn == (q[1].y - q[2].y) * (x - q[2].x) + (q[2].x - q[1].x) * (y - q[2].y);
    assert tn == (q[2].y - q[0].y) * (x - q[2].x) + (q[0].x - q[2].x) * (y - q[2].y);
    CrossCancel(a, b, c, d, u, v, den);
  }

  lemma CrossCancel(a: real, b: real, c: real, d: real, u: real, v: real, den: real)
    requires den == d * a - c * b && den != 0.0
    ensures u == (d * u - c * v) / den * a + (a * v - b * u) / den * c
    ensures v == (d * u - c * v) / den * b + (a * v - b * u) / den * d
  {
    var s, t := (d * u - c * v) / den, (a * v - b * u) / den;
    assert s * den == d * u - c * v;
    assert t * den == a * v - b * u;
    assert (s * a + t * c) * den == u * den by {
      calc {
        (s * a + t * c) * den;
        == (s * den) * a + (t * den) * c;
        == (d * u - c * v) * a + (a * v - b * u) * c;
        == u * (d * a - c * b);
      }
    }
    assert (s * b + t * d) * den == v * den by {
      calc {
        (s * b + t * d) * den;
        == (s * den) * b + (t * den) * d;
        == (d * u - c * v) * b + (a * v - b * u) * d;
        == v * (d * a - c * b);
      }
    }
  }

  /** A point that passes the test lies in the triangle's bounding box (it is a convex
      combination of the corners), so its bucket lists the triangle. */
  lemma HitInBox(q: Points, x: real, y: real)
    requires Hits(q, x, y)
    ensures InBox(q, x, y)
  {
    Barycentric(q, x, y);
    var den := Den(q);
    var s := ((q[1].y - q[2].y) * (x - q[2].x) + (q[2].x - q[1].x) * (y - q[2].y)) / den;
    var t := ((q[2].y - q[0].y) * (x - q[2].x) + (q[0].x - q[2].x) * (y - q[2].y)) / den;
    Convex(q[0].x, q[1].x, q[2].x, s, t, x);
    Convex(q[0].y, q[1].y, q[2].y, s, t, y);
  }

  lemma Convex(a0: real, a1: real, a2: real, s: real, t: real, a: real)
    requires 0.0 <= s && 0.0 <= t && s + t <= 1.0
    requires a - a2 == s * (a0 - a2) + t * (a1 - a2)
    ensures Min3(a0, a1, a2) <= a <= Max3(a0, a1, a2)
  {
    var w := 1.0 - s - t;
    assert a == s * a0 + t * a1 + w * a2;
    Mix(a0, a1, a2, s, t, w, Min3(a0, a1, a2), Max3(a0, a1, a2));
  }

  /** A convex combination lies between a lower and an upper bound of its terms. */
  lemma Mix(a0: real, a1: real, a2: real, s: real, t: real, w: real, lo: real, hi: real)
    requires 0.0 <= s && 0.0 <= t && 0.0 <= w && s + t + w == 1.0
    requires lo <= a0 <= hi && lo <= a1 <= hi && lo <= a2 <= hi
    ensures lo <= s * a0 + t * a1 + w * a2 <= hi
  {
    MixAbove(a0, a1, a2, s, t, w, lo);
    MixBelow(a0, a1, a2, s, t, w, hi);
  }

  lemma MixAbove(a0: real, a1: real, a2: real, s: real, t: real, w: real, lo: real)
    requires 0.0 <= s && 0.0 <= t && 0.0 <= w && s + t + w == 1.0
    requires lo <= a0 && lo <= a1 && lo <= a2
    ensures lo <= s * a0 + t * a1 + w * a2
  {
    Scaled(s, lo, a0);
    Scaled(t, lo, a1);
    Scaled(w, lo, a2);
    Spread(s, t, w, lo);
    SumLe(s * lo, t * lo, w * lo, s * a0, t * a1, w * a2);
  }

  lemma MixBelow(a0: real, a1: real, a2: real, s: real, t: real, w: real, hi: real)
    requires 0.0 <= s && 0.0 <= t && 0.0 <= w && s + t + w == 1.0
    requires a0 <= hi && a1 <= hi && a2 <= hi
    ensures s * a0 + t * a1 + w * a2 <= hi
  {
    Scaled(s, a0, hi);
    Scaled(t, a1, hi);
    Scaled(w, a2, hi);
    Spread(s, t, w, hi);
    SumLe(s * a0, t * a1, w * a2, s * hi, t * hi, w * hi);
  }

  lemma SumLe(p0: real, p1: real, p2: real, q0: real, q1: real, q2: real)
    requires p0 <= q0 && p1 <= q1 && p2 <= q2
    ensures p0 + p1 + p2 <= q0 + q1 + q2
  {
  }

  lemma Scaled(k: real, lo: real, a: real)
    requires k >= 0.0 && lo <= a
    ensures k * lo <= k * a
  {
  }

  lemma Spread(s: real, t: real, w: real, x: real)
    requires s + t + w == 1.0
    ensures s * x + t * x + w * x == x
  {
    assert s * x + t * x + w * x == (s + t + w) * x;
  }

  /** The loop of getBiome over a candidate list: the biome of the first triangle that passes
      the test, NO_DEFINED_BIOME when none does. */
  function FirstBiome(m: Mesh, ts: seq<nat>, x: real, y: real): (b: Biome)
    requires TrianglesIndexed(m) && forall i :: 0 <= i < |ts| ==> ts[i] < |m.tris|
  {
    if ts == [] then NO_DEFINED_BIOME
    else if Hits(TriPoints(m, ts[0]), x, y) then m.tris[ts[0]].biome
    else FirstBiome(m, ts[1..], x, y)
  }

  predicate HitAt(m: Mesh, ts: seq<nat>, x: real, y: real, i: nat)
    requires TrianglesIndexed(m) && i < |ts| && ts[i] < |m.tris|
  {
    Hits(TriPoints(m, ts[i]), x, y)
  }

  /** With no hit among the candidates, FirstBiome is NO_DEFINED_BIOME. */
  lemma {:induction false} FirstBiomeNone(m: Mesh, ts: seq<nat>, x: real, y: real)
    requires TrianglesIndexed(m) && forall i :: 0 <= i < |ts| ==> ts[i] < |m.tris|
    requires forall i :: 0 <= i < |ts| ==> !HitAt(m, ts, x, y, i)
    ensures FirstBiome(m, ts, x, y) == NO_DEFINED_BIOME
  {
    if ts != [] {
      assert !HitAt(m, ts, x, y, 0);
      forall i | 0 <= i < |ts| - 1 ensures !HitAt(m, ts[1..], x, y, i) {
        assert !HitAt(m, ts, x, y, i + 1);
      }
      FirstBiomeNone(m, ts[1..], x, y);
    }
  }

  /** With a first hit at position i, FirstBiome is that triangle's biome. */
  lemma {:induction false} FirstBiomeFirstHit(m: Mesh, ts: seq<nat>, x: real, y: real, i: nat)
    requires TrianglesIndexed(m) && forall j :: 0 <= j < |ts| ==> ts[j] < |m.tris|
    requires i < |ts| && HitAt(m, ts, x, y, i) && forall j :: 0 <= j < i ==> !HitAt(m, ts, x, y, j)
    ensures FirstBiome(m, ts, x, y) == m.tris[ts[i]].biome
  {
    if i > 0 {
      assert !HitAt(m, ts, x, y, 0);
      assert HitAt(m, ts[1..], x, y, i - 1);
      forall j | 0 <= j < i - 1 ensures !HitAt(m, ts[1..], x, y, j) {
        assert !HitAt(m, ts, x, y, j + 1);
      }
      FirstBiomeFirstHit(m, ts[1..], x, y, i - 1);
    }
  }

  /** A hit has a first hit at or before it. */
  lemma {:induction false} FirstHitExists(m: Mesh, ts: seq<nat>, x: real, y: real, i: nat) returns (k: nat)
    requires TrianglesIndexed(m) && forall j :: 0 <= j < |ts| ==> ts[j] < |m.tris|
    requires i < |ts| && HitAt(m, ts, x, y, i)
    ensures k <= i && HitAt(m, ts, x, y, k) && forall j :: 0 <= j < k ==> !HitAt(m, ts, x, y, j)
    decreases i
  {
    if j :| 0 <= j < i && HitAt(m, ts, x, y, j) {
      k := FirstHitExists(m, ts, x, y, j);
    } else {
      k := i;
    }
  }

  /** getBiome on one level. */
  function BiomeAt(m: Mesh, x: real, y: real): Biome
    requires WellFormed(m) && OnMap(x, y)
  {
    var ts := NearTriangles(m, x, y);
    forall i | 0 <= i < |ts| ensures ts[i] < |m.tris| {
      NearBucketEntry(m, x, y, ts[i]);
    }
    FirstBiome(m, ts, x, y)
  }

  lemma NearBucketEntry(m: Mesh, x: real, y: real, t: nat)
    requires WellFormed(m) && OnMap(x, y) && t in NearTriangles(m, x, y)
    ensures t < |m.tris|
  {
    NearTrianglesExact(m, x, y, t);
  }

  /** getBiome finds a triangle whenever one encloses the point: it returns the biome of a stored
      triangle that passes the test, and returns NO_DEFINED_BIOME only if no stored triangle
      passes it (a level without triangles, for instance). */
  lemma BiomeAtSound(m: Mesh, x: real, y: real)
    requires WellFormed(m) && OnMap(x, y)
    ensures (forall t :: 0 <= t < |m.tris| ==> !Hits(TriPoints(m, t), x, y)) ==> BiomeAt(m, x, y) == NO_DEFINED_BIOME
    ensures (exists t :: 0 <= t < |m.tris| && Hits(TriPoints(m, t), x, y)) ==>
      exists t :: 0 <= t < |m.tris| && Hits(TriPoints(m, t), x, y) && BiomeAt(m, x, y) == m.tris[t].biome
  {
    var ts := NearTriangles(m, x, y);
    forall i | 0 <= i < |ts| ensures ts[i] < |m.tris| {
      NearBucketEntry(m, x, y, ts[i]);
    }
    if t :| 0 <= t < |m.tris| && Hits(TriPoints(m, t), x, y) {
      HitInBox(TriPoints(m, t), x, y);
      NearTrianglesComplete(m, x, y, t);
      var i :| 0 <= i < |ts| && ts[i] == t;
      assert HitAt(m, ts, x, y, i);
      var k := FirstHitExists(m, ts, x, y, i);
      FirstBiomeFirstHit(m, ts, x, y, k);
      assert Hits(TriPoints(m, ts[k]), x, y);
    } else {
      forall i | 0 <= i < |ts| ensures !HitAt(m, ts, x, y, i) {
        assert !Hits(TriPoints(m, ts[i]), x, y);
      }
      FirstBiomeNone(m, ts, x, y);
    }
  }

  lemma EmptyLevelHasNoBiome(x: real, y: real)
    requires OnMap(x, y)
    ensures WellFormed(EmptyMesh()) && BiomeAt(EmptyMesh(), x, y) == NO_DEFINED_BIOME
  {
    EmptyMeshWellFormed();
  }

  // ---------------------------------------------------------------------------------------
  // isOcean
  // ---------------------------------------------------------------------------------------

  /** isOcean(x, y): some bucket of the chunk holds no triangle. */
  function IsOcean(m: Mesh, x: nat, y: nat): (r: bool)
    requires BucketsShaped(m.buckets) && x < NB_CHUNKS && y < NB_CHUNKS
    ensures r <==> exists s :: 0 <= s < GRID_SUBDIV * GRID_SUBDIV && m.buckets[ChunkIndex(x, y)][s] == []
  {
    FirstEmpty(m.buckets[ChunkIndex(x, y)], 0)
  }

  function FirstEmpty(row: seq<seq<nat>>, i: nat): (r: bool)
    requires i <= |row|
    ensures r <==> exists s :: i <= s < |row| && row[s] == []
    decreases |row| - i
  {
    if i == |row| then false
    else if row[i] == [] then true
    else FirstEmpty(row, i + 1)
  }

  /** No triangle's bounding box covers bucket s of chunk row c. */
  ghost predicate Uncovered(m: Mesh, c: nat, s: nat)
    requires TrianglesIndexed(m) && VerticesInWorld(m)
  {
    forall t :: 0 <= t < |m.tris| ==> !Covers(TriBox(m, t), c, s)
  }

  /** On a well-formed level, a chunk is ocean exactly when one of its subchunks is covered by
      the bounding box of no triangle. */
  lemma OceanMeansUncovered(m: Mesh, x: nat, y: nat)
    requires WellFormed(m) && x < NB_CHUNKS && y < NB_CHUNKS
    ensures IsOcean(m, x, y) <==>
      exists s :: 0 <= s < GRID_SUBDIV * GRID_SUBDIV && Uncovered(m, ChunkIndex(x, y), s)
  {
    var c := ChunkIndex(x, y);
    forall s | 0 <= s < GRID_SUBDIV * GRID_SUBDIV
      ensures m.buckets[c][s] == [] <==> Uncovered(m, c, s)
    {
      if m.buckets[c][s] == [] {
        forall t | 0 <= t < |m.tris| ensures !Covers(TriBox(m, t), c, s) {
          assert BucketExact(m, c, s, t);
        }
      } else {
        var t := m.buckets[c][s][0];
        assert BucketExact(m, c, s, t);
        assert t in multiset(m.buckets[c][s]);
      }
    }
  }

  // ---------------------------------------------------------------------------------------
  // getTrianglesInChunk
  // ---------------------------------------------------------------------------------------

  /** compTri: the lexicographic order of the vertex triples. The code compares the vertices'
      addresses; here the arena indices stand for them. */
  predicate KeyLess(a: (nat, nat, nat), b: (nat, nat, nat)) {
    a.0 < b.0 || (a.0 == b.0 && (a.1 < b.1 || (a.1 == b.1 && a.2 < b.2)))
  }

  /** The vertex triple of triangle t, which both compTri and equalTri look at. */
  function TriKey(m: Mesh): nat -> (nat, nat, nat) {
    (t: nat) => if t < |m.tris| then m.tris[t].Key() else (0, 0, 0)
  }

  function TriLess(m: Mesh): (nat, nat) -> bool {
    (a: nat, b: nat) => KeyLess(TriKey(m)(a), TriKey(m)(b))
  }

  /** getTrianglesInChunk(x, y) on one level: the chunk's buckets appended, sorted with compTri,
      and stripped of adjacent entries with equal vertex triples. */
  function ChunkTriangles(m: Mesh, x: nat, y: nat): seq<nat>
    requires BucketsShaped(m.buckets) && x < NB_CHUNKS && y < NB_CHUNKS
  {
    UniqueBy(SortBy(Concat(m.buckets[ChunkIndex(x, y)]), TriLess(m)), TriKey(m))
  }

  /** The chunk's triangles: those whose bounding box covers one of its subchunks. */
  ghost predicate InChunk(m: Mesh, x: nat, y: nat, t: nat)
    requires TrianglesIndexed(m) && VerticesInWorld(m)
  {
    t < |m.tris| && exists s :: 0 <= s < GRID_SUBDIV * GRID_SUBDIV && Covers(TriBox(m, t), ChunkIndex(x, y), s)
  }

  lemma ChunkEntry(m: Mesh, x: nat, y: nat, t: nat)
    requires WellFormed(m) && x < NB_CHUNKS && y < NB_CHUNKS
    ensures t in Concat(m.buckets[ChunkIndex(x, y)]) <==> InChunk(m, x, y, t)
  {
    var c := ChunkIndex(x, y);
    var row := m.buckets[c];
    if t in Concat(row) {
      var s :| 0 <= s < |row| && t in row[s];
      assert BucketExact(m, c, s, t);
    }
    if InChunk(m, x, y, t) {
      var s :| 0 <= s < GRID_SUBDIV * GRID_SUBDIV && Covers(TriBox(m, t), c, s);
      assert BucketExact(m, c, s, t);
      assert t in row[s];
    }
  }

  /** getTrianglesInChunk lists exactly the triangles of the chunk. */
  lemma ChunkTrianglesMembers(m: Mesh, x: nat, y: nat, t: nat)
    requires WellFormed(m) && x < NB_CHUNKS && y < NB_CHUNKS
    ensures t in ChunkTriangles(m, x, y) <==> InChunk(m, x, y, t)
  {
    if t in ChunkTriangles(m, x, y) {
      ChunkTrianglesSound(m, x, y, t);
    }
    if InChunk(m, x, y, t) {
      ChunkTrianglesComplete(m, x, y, t);
    }
  }

  lemma ChunkTrianglesSound(m: Mesh, x: nat, y: nat, t: nat)
    requires WellFormed(m) && x < NB_CHUNKS && y < NB_CHUNKS
    requires t in ChunkTriangles(m, x, y)
    ensures InChunk(m, x, y, t)
  {
    var all := Concat(m.buckets[ChunkIndex(x, y)]);
    var sorted := SortBy(all, TriLess(m));
    var r := UniqueBy(sorted, TriKey(m));
    var i :| 0 <= i < |r| && r[i] == t;
    UniqueByKeeps(sorted, TriKey(m), i);
    assert t in multiset(sorted);
    assert t in all;
    ChunkEntry(m, x, y, t);
  }

  lemma ChunkTrianglesComplete(m: Mesh, x: nat, y: nat, t: nat)
    requires WellFormed(m) && x < NB_CHUNKS && y < NB_CHUNKS
    requires InChunk(m, x, y, t)
    ensures t in ChunkTriangles(m, x, y)
  {
    var sorted := SortBy(Concat(m.buckets[ChunkIndex(x, y)]), TriLess(m));
    var r := ChunkTriangles(m, x, y);
    assert r == UniqueBy(sorted, TriKey(m));
    SortedHolds(m, x, y, t);
    UniqueByCovers(sorted, TriKey(m), t);
    var i :| 0 <= i < |r| && TriKey(m)(r[i]) == TriKey(m)(t);
    UniqueByKeeps(sorted, TriKey(m), i);
    SortedInChunk(m, x, y, r[i]);
    SameKeySameTriangle(m, r[i], t);
    assert r[i] == t;
  }

  /** Every triangle of the chunk is among the sorted bucket entries. */
  lemma SortedHolds(m: Mesh, x: nat, y: nat, t: nat)
    requires WellFormed(m) && x < NB_CHUNKS && y < NB_CHUNKS
    requires InChunk(m, x, y, t)
    ensures t in SortBy(Concat(m.buckets[ChunkIndex(x, y)]), TriLess(m))
  {
    var all := Concat(m.buckets[ChunkIndex(x, y)]);
    ChunkEntry(m, x, y, t);
    assert t in multiset(all);
    assert t in multiset(SortBy(all, TriLess(m)));
  }

  /** Every sorted bucket entry is a triangle of the chunk. */
  lemma SortedInChunk(m: Mesh, x: nat, y: nat, u: nat)
    requires WellFormed(m) && x < NB_CHUNKS && y < NB_CHUNKS
    requires u in SortBy(Concat(m.buckets[ChunkIndex(x, y)]), TriLess(m))
    ensures InChunk(m, x, y, u)
  {
    var all := Concat(m.buckets[ChunkIndex(x, y)]);
    assert u in multiset(SortBy(all, TriLess(m)));
    assert u in all;
    ChunkEntry(m, x, y, u);
  }

  lemma SameKeySameTriangle(m: Mesh, u: nat, t: nat)
    requires TrianglesIndexed(m) && u < |m.tris| && t < |m.tris| && m.tris[u].Key() == m.tris[t].Key()
    ensures u == t
  {
    assert u == m.triangleAt[m.tris[t].Key()];
  }

  lemma TriLessStrict(m: Mesh)
    ensures StrictOrder(TriLess(m))
    ensures forall a, b :: TriKey(m)(a) != TriKey(m)(b) ==> TriLess(m)(a, b) || TriLess(m)(b, a)
  {
    var lt := TriLess(m);
    forall a ensures !lt(a, a) {
      assert !KeyLess(TriKey(m)(a), TriKey(m)(a));
    }
    forall a, b, c | lt(a, b) && lt(b, c) ensures lt(a, c) {
      assert KeyLess(TriKey(m)(a), TriKey(m)(b)) && KeyLess(TriKey(m)(b), TriKey(m)(c));
    }
  }

  /** getTrianglesInChunk lists its triangles in increasing compTri order, each once. */
  lemma ChunkTrianglesOrdered(m: Mesh, x: nat, y: nat)
    requires BucketsShaped(m.buckets) && x < NB_CHUNKS && y < NB_CHUNKS
    ensures var r := ChunkTriangles(m, x, y);
      (forall i, j :: 0 <= i < j < |r| ==> KeyLess(TriKey(m)(r[i]), TriKey(m)(r[j]))) &&
      (forall i, j :: 0 <= i < j < |r| ==> r[i] != r[j])
  {
    var sorted := SortBy(Concat(m.buckets[ChunkIndex(x, y)]), TriLess(m));
    TriLessStrict(m);
    SortBySorted(Concat(m.buckets[ChunkIndex(x, y)]), TriLess(m));
    UniqueOfSortedIsStrict(sorted, TriLess(m), TriKey(m));
    StrictlySortedDistinct(UniqueBy(sorted, TriKey(m)), TriLess(m));
  }

  // ---------------------------------------------------------------------------------------
  // getVertices
  // ---------------------------------------------------------------------------------------

  /** The corners of the listed triangles, three per triangle, in order. */
  function CornersOf(tris: seq<Triangle>, ts: seq<nat>): (r: seq<nat>)
    requires forall i :: 0 <= i < |ts| ==> ts[i] < |tris|
    ensures |r| == 3 * |ts|
    ensures forall i, k :: 0 <= i < |ts| && 0 <= k < 3 ==> r[3 * i + k] == tris[ts[i]].Corner(k)
  {
    if ts == [] then []
    else
      var init := CornersOf(tris, ts[..|ts| - 1]);
      var tr := tris[ts[|ts| - 1]];
      init + [tr.v0, tr.v1, tr.v2]
  }

  function Same(v: nat): nat { v }

  /** getVertices: the corners, with adjacent repetitions removed by `std::list::unique`. */
  function VerticesOf(tris: seq<Triangle>, ts: seq<nat>): seq<nat>
    requires forall i :: 0 <= i < |ts| ==> ts[i] < |tris|
  {
    UniqueBy(CornersOf(tris, ts), Same)
  }

  /** getVertices lists every corner of every listed triangle and nothing else, and never the
      same vertex twice in a row. */
  lemma VerticesOfCorners(tris: seq<Triangle>, ts: seq<nat>)
    requires forall i :: 0 <= i < |ts| ==> ts[i] < |tris|
    ensures var r := VerticesOf(tris, ts);
      (forall i, k :: 0 <= i < |ts| && 0 <= k < 3 ==> tris[ts[i]].Corner(k) in r) &&
      (forall j :: 0 <= j < |r| ==> exists i, k :: 0 <= i < |ts| && 0 <= k < 3 && r[j] == tris[ts[i]].Corner(k)) &&
      (forall j :: 0 <= j < |r| - 1 ==> r[j] != r[j + 1])
  {
    var cs := CornersOf(tris, ts);
    var r := VerticesOf(tris, ts);
    forall i, k | 0 <= i < |ts| && 0 <= k < 3 ensures tris[ts[i]].Corner(k) in r {
      assert cs[3 * i + k] == tris[ts[i]].Corner(k);
      UniqueByCovers(cs, Same, cs[3 * i + k]);
    }
    forall j | 0 <= j < |r|
      ensures exists i, k :: 0 <= i < |ts| && 0 <= k < 3 && r[j] == tris[ts[i]].Corner(k)
    {
      UniqueByKeeps(cs, Same, j);
      var n :| 0 <= n < |cs| && cs[n] == r[j];
      assert cs[3 * (n / 3) + n % 3] == tris[ts[n / 3]].Corner(n % 3);
    }
  }

  /** An example of the quirk `unique` gives getVertices: a vertex shared by two listed
      triangles comes out twice unless its two corners end up next to each other. */
  lemma VerticesOfKeepsRepeats()
    ensures VerticesOf([Triangle(0, 1, 2, 0), Triangle(0, 2, 3, 0)], [0, 1]) == [0, 1, 2, 0, 2, 3]
  {
    var tris := [Triangle(0, 1, 2, 0), Triangle(0, 2, 3, 0)];
    var one: seq<nat> := [0];
    var two: seq<nat> := [0, 1];
    assert two[..1] == one;
    assert CornersOf(tris, one) == [0, 1, 2];
    var cs := CornersOf(tris, two);
    assert cs == [0, 1, 2, 0, 2, 3];
    UniqueByNoAdjacent(cs, Same);
  }
}
