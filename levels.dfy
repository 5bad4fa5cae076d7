/**
  The SubdivisionLevel class of src/terrain/terrainGeometry.cpp with its loops: the vertex
  loops of getBorder and of the smoothing step, addTriangle with its subchunk loops,
  subdivideTriangles, and the queries isOcean, getVertices, getTrianglesInChunk and getBiome.
  Every method is proved against the value model of MeshModel, MeshInsert, MeshQuery and
  Subdivision.
 */
module Levels {
  import opened Wrappers
  import opened Sorting
  import opened MeshModel
  import opened MeshInsert
  import opened MeshQuery
  import opened Subdivision
  import opened Seqs

  // ---------------------------------------------------------------------------------------
  // The loops over a fan
  // ---------------------------------------------------------------------------------------

  /** Vertex::getBorder: walks the fan pair by pair and stops at the first pair that is not
      joined; the last triangle is then compared with the front one. */
  method GetBorder(verts: seq<Vertex>, tris: seq<Triangle>, vx: Vertex) returns (b: (Vec3, Vec3))
    requires FanAround(verts, tris, vx.fan, vx.pos) && |vx.fan| > 0
    ensures b == Border(verts, tris, vx)
  {
    var n := |vx.fan|;
    var i := 0;
    while i + 1 < n
      invariant 0 <= i < n
      invariant FirstGap(verts, tris, vx, i) == FirstGap(verts, tris, vx, 0)
    {
      assert vx.fan[i] in vx.fan && vx.fan[i + 1] in vx.fan;
      var cur := Turn(verts, tris[vx.fan[i]], vx.pos, 2);
      var next := Turn(verts, tris[vx.fan[i + 1]], vx.pos, 1);
      JoinedAt(verts, tris, vx, i, i + 1);
      if cur != next {
        BorderAt(verts, tris, vx, i, i + 1);
        return (verts[cur].pos, verts[next].pos);
      }
      i := i + 1;
    }
    assert vx.fan[i] in vx.fan && vx.fan[0] in vx.fan;
    var cur := Turn(verts, tris[vx.fan[i]], vx.pos, 2);
    var front := Turn(verts, tris[vx.fan[0]], vx.pos, 1);
    JoinedAt(verts, tris, vx, i, 0);
    if cur != front {
      BorderAt(verts, tris, vx, i, 0);
      b := (verts[cur].pos, verts[front].pos);
    } else {
      assert FirstGap(verts, tris, vx, i + 1) == None;
      b := (Zero, Zero);
    }
  }

  /** The two vertices getBorder compares at position i of the fan, and what comparing them
      tells about the fan. */
  lemma JoinedAt(verts: seq<Vertex>, tris: seq<Triangle>, vx: Vertex, i: nat, j: nat)
    requires FanAround(verts, tris, vx.fan, vx.pos) && i < |vx.fan|
    requires j == if i + 1 < |vx.fan| then i + 1 else 0
    ensures vx.fan[i] in vx.fan && vx.fan[j] in vx.fan
    ensures var cur, next := Turn(verts, tris[vx.fan[i]], vx.pos, 2), Turn(verts, tris[vx.fan[j]], vx.pos, 1);
      (Joined(verts, tris, vx, i) <==> cur == next) &&
      (cur == next ==> FirstGap(verts, tris, vx, i) == FirstGap(verts, tris, vx, i + 1)) &&
      (cur != next ==> FirstGap(verts, tris, vx, i) == Some(i))
  {
    assert vx.fan[i] in vx.fan && vx.fan[j] in vx.fan;
    NextIndex(i, |vx.fan|);
  }

  /** The border read off the first gap. */
  lemma BorderAt(verts: seq<Vertex>, tris: seq<Triangle>, vx: Vertex, i: nat, j: nat)
    requires FanAround(verts, tris, vx.fan, vx.pos) && i < |vx.fan|
    requires j == if i + 1 < |vx.fan| then i + 1 else 0
    requires FirstGap(verts, tris, vx, 0) == Some(i)
    ensures vx.fan[i] in vx.fan && vx.fan[j] in vx.fan
    ensures Border(verts, tris, vx) ==
      (verts[Turn(verts, tris[vx.fan[i]], vx.pos, 2)].pos, verts[Turn(verts, tris[vx.fan[j]], vx.pos, 1)].pos)
  {
    assert vx.fan[i] in vx.fan && vx.fan[j] in vx.fan;
    NextIndex(i, |vx.fan|);
  }

  lemma NextIndex(i: nat, n: nat)
    requires i < n
    ensures (i + 1) % n == if i + 1 < n then i + 1 else 0
  {
  }

  /** The new position of an old vertex, as the first loop of subdivideTriangles computes it:
      the border mask when getBorder finds a gap, else the weighted ring of neighbours. */
  method SmoothVertex(verts: seq<Vertex>, tris: seq<Triangle>, vx: Vertex) returns (p: Vec3)
    requires FanAround(verts, tris, vx.fan, vx.pos) && |vx.fan| > 0
    ensures p == Smooth(verts, tris, vx)
  {
    SmoothUnfold(verts, tris, vx);
    var border := GetBorder(verts, tris, vx);
    if border.0 != Zero {
      p := Add(Add(Scale(3.0 / 4.0, vx.pos), Scale(1.0 / 8.0, border.0)), Scale(1.0 / 8.0, border.1));
    } else {
      p := WeightRing(verts, tris, vx);
    }
  }

  /** The interior case: 1 - n beta of the vertex itself, then beta of the second vertex of each
      adjacent triangle, in fan order. */
  method WeightRing(verts: seq<Vertex>, tris: seq<Triangle>, vx: Vertex) returns (p: Vec3)
    requires FanAround(verts, tris, vx.fan, vx.pos) && |vx.fan| > 0
    ensures p == InteriorMask(verts, tris, vx)
  {
    var n := |vx.fan|;
    var beta := Beta(n);
    assert InteriorMask(verts, tris, vx) == WeightedRing(verts, tris, vx, beta);
    WeightedRingIsRing(verts, tris, vx, beta, 1.0 - n as real * beta);
    p := Scale(1.0 - n as real * beta, vx.pos);
    ghost var self := p;
    for i := 0 to n
      invariant FanAround(verts, tris, vx.fan[..i], vx.pos)
      invariant p == Ring(self, verts, tris, vx.fan[..i], vx.pos, beta)
    {
      RingSnoc(self, verts, tris, vx.fan, vx.pos, beta, i);
      var t := vx.fan[i];
      var r := Turn(verts, tris[t], vx.pos, 1);
      p := Add(p, Scale(beta, verts[r].pos));
    }
    assert vx.fan[..n] == vx.fan;
  }

  /** One more step of the ring sum. */
  lemma RingSnoc(acc: Vec3, verts: seq<Vertex>, tris: seq<Triangle>, fan: seq<nat>, p: Vec3, beta: real, i: nat)
    requires FanAround(verts, tris, fan, p) && i < |fan|
    ensures FanAround(verts, tris, fan[..i], p) && FanAround(verts, tris, fan[..i + 1], p)
    ensures fan[i] in fan
    ensures Ring(acc, verts, tris, fan[..i + 1], p, beta) ==
      Add(Ring(acc, verts, tris, fan[..i], p, beta), Scale(beta, Neighbour(verts, tris, fan[i], p)))
  {
    assert fan[i] in fan;
    forall u | u in fan[..i + 1] ensures u in fan { }
    forall u | u in fan[..i] ensures u in fan { }
    assert fan[..i + 1][..i] == fan[..i];
  }

  /** getVertices: the three corners of every listed triangle, then `unique`. */
  method GetVertices(tris: seq<Triangle>, ts: seq<nat>) returns (r: seq<nat>)
    requires forall i :: 0 <= i < |ts| ==> ts[i] < |tris|
    ensures r == VerticesOf(tris, ts)
  {
    var corners: seq<nat> := [];
    for i := 0 to |ts|
      invariant corners == CornersOf(tris, ts[..i])
    {
      assert ts[..i + 1][..i] == ts[..i];
      var tr := tris[ts[i]];
      corners := corners + [tr.v0, tr.v1, tr.v2];
    }
    assert ts[..|ts|] == ts;
    r := UniqueBy(corners, Same);
  }

  // ---------------------------------------------------------------------------------------
  // The subchunk loops of addTriangle
  // ---------------------------------------------------------------------------------------

  /** First and one-past-last subchunk the loops visit in chunk i of an axis whose box runs
      from subchunk ls of chunk lc to subchunk hs of chunk hc. */
  function FirstSub(lc: nat, ls: nat, i: nat): nat { if i == lc then ls else 0 }
  function EndSub(hc: nat, hs: nat, i: nat): nat { if i == hc then hs + 1 else GRID_SUBDIV }

  /** Subchunk k of chunk i is visited along one axis. */
  predicate OnAxis(lc: nat, ls: nat, hc: nat, hs: nat, i: nat, k: nat) {
    lc <= i <= hc && FirstSub(lc, ls, i) <= k < EndSub(hc, hs, i)
  }

  /** The corners of a box that addTriangle computes: subchunks below GRID_SUBDIV, and a far
      corner inside the world. */
  predicate LoopBox(box: Box) {
    box.lo.sx < GRID_SUBDIV && box.lo.sy < GRID_SUBDIV && box.hi.sx < GRID_SUBDIV && box.hi.sy < GRID_SUBDIV &&
    box.hi.cx < NB_CHUNKS && box.hi.cy < NB_CHUNKS
  }

  lemma BoxOfLoops(q: Points)
    requires PointsInWorld(q)
    ensures LoopBox(BoxOf(q))
  {
    ChunkLimit(ClampMax(Max3(q[0].x, q[1].x, q[2].x)));
    ChunkLimit(ClampMax(Max3(q[0].y, q[1].y, q[2].y)));
  }

  /** Along one axis, the loops visit exactly the subchunks between the box corners. */
  lemma AxisLoops(lc: nat, ls: nat, hc: nat, hs: nat, i: nat, k: nat)
    requires ls < GRID_SUBDIV && hs < GRID_SUBDIV && k < GRID_SUBDIV
    ensures OnAxis(lc, ls, hc, hs, i, k) <==> GlobalSub(lc, ls) <= GlobalSub(i, k) <= GlobalSub(hc, hs)
  {
  }

  /** The four loops visit exactly the buckets the box covers. */
  lemma LoopsCover(box: Box, c: nat, s: nat)
    requires LoopBox(box) && s < GRID_SUBDIV * GRID_SUBDIV
    ensures Covers(box, c, s) <==>
      OnAxis(box.lo.cx, box.lo.sx, box.hi.cx, box.hi.sx, c / NB_CHUNKS, s / GRID_SUBDIV) &&
      OnAxis(box.lo.cy, box.lo.sy, box.hi.cy, box.hi.sy, c % NB_CHUNKS, s % GRID_SUBDIV)
  {
    AxisLoops(box.lo.cx, box.lo.sx, box.hi.cx, box.hi.sx, c / NB_CHUNKS, s / GRID_SUBDIV);
    AxisLoops(box.lo.cy, box.lo.sy, box.hi.cy, box.hi.sy, c % NB_CHUNKS, s % GRID_SUBDIV);
  }

  /** A valid bucket address: chunk row c, bucket s. */
  predicate Cell(c: nat, s: nat) {
    c < NB_CHUNKS * NB_CHUNKS && s < GRID_SUBDIV * GRID_SUBDIV
  }

  /** Bucket (c, s) of b is that of b0, followed by t when `yes` holds. */
  predicate Pushed(b: seq<seq<seq<nat>>>, b0: seq<seq<seq<nat>>>, t: nat, c: nat, s: nat, yes: bool)
    requires BucketsShaped(b) && BucketsShaped(b0) && Cell(c, s)
  {
    b[c][s] == b0[c][s] + if yes then [t] else []
  }

  // ---------------------------------------------------------------------------------------
  // The level
  // ---------------------------------------------------------------------------------------

  // ---------------------------------------------------------------------------------------
  // The memo of subdivideTriangles
  // ---------------------------------------------------------------------------------------

  /** Vertex v while the subdivision runs, against the source level s0 it started from: once its
      position is in the memo, the vertex is sorted and the memo holds its smoothed position;
      before that, it is as it was. */
  ghost predicate MemoAt(s0: Mesh, verts: seq<Vertex>, memo: map<Vec3, Vec3>, v: nat, angle: (real, real) -> real)
    requires WellFormed(s0) && v < |s0.verts| && |verts| == |s0.verts|
  {
    if s0.verts[v].pos in memo then
      verts[v] == SortedVertex(s0, v, angle) && memo[s0.verts[v].pos] == Smoothed(s0, v, angle)
    else verts[v] == s0.verts[v]
  }

  ghost predicate Memo(s0: Mesh, verts: seq<Vertex>, memo: map<Vec3, Vec3>, angle: (real, real) -> real)
    requires WellFormed(s0)
  {
    |verts| == |s0.verts| && forall v :: 0 <= v < |verts| ==> MemoAt(s0, verts, memo, v, angle)
  }

  /** Sorting a fan moves no vertex. */
  lemma MemoSamePositions(s0: Mesh, verts: seq<Vertex>, memo: map<Vec3, Vec3>, angle: (real, real) -> real)
    requires WellFormed(s0) && Memo(s0, verts, memo, angle)
    ensures SamePositions(s0.verts, verts)
  {
    forall v | 0 <= v < |verts| ensures verts[v].pos == s0.verts[v].pos {
      assert MemoAt(s0, verts, memo, v, angle);
    }
  }

  /** The vertices of a run still form a well-formed level with the other parts of s0: only
      the order of some fans changed. */
  lemma MemoWellFormed(s0: Mesh, verts: seq<Vertex>, memo: map<Vec3, Vec3>, angle: (real, real) -> real)
    requires WellFormed(s0) && Memo(s0, verts, memo, angle)
    ensures WellFormed(s0.(verts := verts))
  {
    MemoSamePositions(s0, verts, memo, angle);
    var s := s0.(verts := verts);
    forall v | 0 <= v < |verts| ensures FanOkAt(s, v) {
      assert MemoAt(s0, verts, memo, v, angle);
      assert FanOkAt(s0, v);
      SortedVertexFan(s0, v, angle);
      FanAroundSame(s0.verts, verts, s0.tris, verts[v].fan, verts[v].pos);
    }
    SamePositionsWellFormed(s0, verts);
  }

  /** A level whose vertices move nowhere and whose fans stay correct is still well formed. */
  lemma SamePositionsWellFormed(s0: Mesh, verts: seq<Vertex>)
    requires WellFormed(s0) && SamePositions(s0.verts, verts)
    requires FansOk(s0.(verts := verts))
    ensures WellFormed(s0.(verts := verts))
  {
    var s := s0.(verts := verts);
    forall t | 0 <= t < |s.tris| ensures TriPoints(s, t) == TriPoints(s0, t) {
      assert s0.tris[t].InRange(|s0.verts|);
    }
    assert TrianglesIndexed(s);
    forall t | 0 <= t < |s.tris| ensures WoundAt(s, t) {
      assert WoundAt(s0, t);
    }
    forall c, sc, t: nat | 0 <= c < |s.buckets| && 0 <= sc < GRID_SUBDIV * GRID_SUBDIV ensures BucketExact(s, c, sc, t) {
      assert BucketExact(s0, c, sc, t);
      if t < |s.tris| {
        assert TriBox(s, t) == TriBox(s0, t);
      }
    }
  }

  /** The first loop of subdivideTriangles for one corner v: unless its position is in the memo
      already, the vertex is sorted, smoothed, and its new position memoised. */
  method SmoothCorner(src: SubdivisionLevel, v: nat, memo: map<Vec3, Vec3>, angle: (real, real) -> real, ghost s0: Mesh)
    returns (memo': map<Vec3, Vec3>)
    requires WellFormed(s0) && v < |s0.verts| && src.tris == s0.tris && Memo(s0, src.verts, memo, angle)
    modifies src
    ensures Memo(s0, src.verts, memo', angle)
    ensures var p := s0.verts[v].pos; memo' == if p in memo then memo else memo[p := Smoothed(s0, v, angle)]
    ensures unchanged(src`vertexAt, src`tris, src`triangleAt, src`buckets)
  {
    memo' := memo;
    assert MemoAt(s0, src.verts, memo, v, angle);
    var p := src.verts[v].pos;
    if p !in memo {
      ghost var verts0 := src.verts;
      var sv := SortTriangles(src.verts, src.tris, src.verts[v], angle);
      SortedCorner(s0, verts0, memo, v, angle);
      src.verts := src.verts[v := sv];
      var newPos := SmoothVertex(src.verts, src.tris, sv);
      memo' := memo[p := newPos];
      MemoInsert(s0, verts0, memo, v, angle);
    }
  }

  /** Sorting vertex v within the run gives its sorted vertex of s0, whose smoothing, read in
      the run's vertices, is its smoothed position. */
  lemma SortedCorner(s0: Mesh, verts: seq<Vertex>, memo: map<Vec3, Vec3>, v: nat, angle: (real, real) -> real)
    requires WellFormed(s0) && v < |s0.verts| && Memo(s0, verts, memo, angle) && s0.verts[v].pos !in memo
    ensures var sv := SortTriangles(verts, s0.tris, verts[v], angle);
      sv == SortedVertex(s0, v, angle) && |sv.fan| > 0 && FanAround(verts[v := sv], s0.tris, sv.fan, sv.pos) &&
      Smooth(verts[v := sv], s0.tris, sv) == Smoothed(s0, v, angle)
  {
    assert MemoAt(s0, verts, memo, v, angle);
    MemoSamePositions(s0, verts, memo, angle);
    var sv := SortTriangles(verts, s0.tris, verts[v], angle);
    SortTrianglesSame(s0.verts, verts, s0.tris, s0.verts[v], angle);
    assert FanOkAt(s0, v);
    SortedVertexFan(s0, v, angle);
    SmoothSame(s0.verts, verts[v := sv], s0.tris, sv);
  }

  /** Memoising vertex v keeps the memo invariant: positions are distinct, so no other vertex is
      concerned. */
  lemma MemoInsert(s0: Mesh, verts: seq<Vertex>, memo: map<Vec3, Vec3>, v: nat, angle: (real, real) -> real)
    requires WellFormed(s0) && v < |s0.verts| && Memo(s0, verts, memo, angle) && s0.verts[v].pos !in memo
    ensures Memo(s0, verts[v := SortedVertex(s0, v, angle)], memo[s0.verts[v].pos := Smoothed(s0, v, angle)], angle)
  {
    var verts', memo' := verts[v := SortedVertex(s0, v, angle)], memo[s0.verts[v].pos := Smoothed(s0, v, angle)];
    forall u | 0 <= u < |verts'| ensures MemoAt(s0, verts', memo', u, angle) {
      assert MemoAt(s0, verts, memo, u, angle);
      if u != v {
        assert s0.vertexAt[s0.verts[u].pos] == u && s0.vertexAt[s0.verts[v].pos] == v;
      }
    }
  }

  /** A memoised vertex is sorted and its memo entry is its smoothed position. */
  lemma MemoLookup(s0: Mesh, verts: seq<Vertex>, memo: map<Vec3, Vec3>, v: nat, angle: (real, real) -> real)
    requires WellFormed(s0) && Memo(s0, verts, memo, angle) && v < |s0.verts| && s0.verts[v].pos in memo
    ensures verts[v] == SortedVertex(s0, v, angle) && verts[v].pos == s0.verts[v].pos
    ensures memo[verts[v].pos] == Smoothed(s0, v, angle)
  {
    assert MemoAt(s0, verts, memo, v, angle);
  }

  /** The midpoint read in the run's vertices, after corner i of t is memoised, is that of the
      model. */
  lemma MidCorner(s0: Mesh, verts: seq<Vertex>, tris: seq<Triangle>, memo: map<Vec3, Vec3>, t: nat, i: nat, angle: (real, real) -> real)
    requires WellFormed(s0) && tris == s0.tris && Memo(s0, verts, memo, angle) && CornerFansOk(s0, t) && i < 3
    requires s0.verts[s0.tris[t].Corner(i)].pos in memo
    ensures t < |tris| && tris[t].InRange(|verts|)
    ensures var vi := verts[tris[t].Corner(i)];
      FanAround(verts, tris, vi.fan, vi.pos) && vi.pos == Pos(verts, tris[t], i) &&
      MidPoint(verts, tris, vi, t, i) == Mid(s0, t, i, angle)
  {
    var v := s0.tris[t].Corner(i);
    MemoLookup(s0, verts, memo, v, angle);
    MemoSamePositions(s0, verts, memo, angle);
    assert FanOkAt(s0, v);
    SortedVertexFan(s0, v, angle);
    MidPointSame(s0.verts, verts, s0.tris, verts[v], t, i);
  }

  /** The first loop of subdivideTriangles for all corners of triangle t. */
  method SmoothCorners(src: SubdivisionLevel, t: nat, memo: map<Vec3, Vec3>, angle: (real, real) -> real, ghost s0: Mesh)
    returns (memo': map<Vec3, Vec3>)
    requires WellFormed(s0) && t < |s0.tris| && src.tris == s0.tris && Memo(s0, src.verts, memo, angle)
    modifies src
    ensures Memo(s0, src.verts, memo', angle)
    ensures forall i :: 0 <= i < 3 ==> s0.verts[s0.tris[t].Corner(i)].pos in memo'
    ensures unchanged(src`vertexAt, src`tris, src`triangleAt, src`buckets)
  {
    assert s0.tris[t].InRange(|s0.verts|);
    memo' := memo;
    for i := 0 to 3
      invariant Memo(s0, src.verts, memo', angle) && src.tris == s0.tris
      invariant forall k :: 0 <= k < i ==> s0.verts[s0.tris[t].Corner(k)].pos in memo'
      invariant unchanged(src`vertexAt, src`tris, src`triangleAt, src`buckets)
    {
      memo' := SmoothCorner(src, src.tris[t].Corner(i), memo', angle, s0);
    }
  }

  /** The second loop of subdivideTriangles: the midpoint of each edge of triangle t, read in the
      vertices of the run once the corners of t are memoised. */
  method MidPoints(verts: seq<Vertex>, tris: seq<Triangle>, t: nat, memo: map<Vec3, Vec3>, angle: (real, real) -> real, ghost s0: Mesh)
    returns (mids: seq<Vec3>)
    requires WellFormed(s0) && tris == s0.tris && Memo(s0, verts, memo, angle) && CornerFansOk(s0, t)
    requires forall i :: 0 <= i < 3 ==> s0.verts[s0.tris[t].Corner(i)].pos in memo
    ensures |mids| == 3 && forall k :: 0 <= k < 3 ==> mids[k] == Mid(s0, t, k, angle)
  {
    mids := [];
    for i := 0 to 3
      invariant |mids| == i && forall k :: 0 <= k < i ==> mids[k] == Mid(s0, t, k, angle)
    {
      var mp := EdgeMidPoint(verts, tris, t, i, memo, angle, s0);
      mids := mids + [mp];
    }
  }

  /** One iteration of that loop: the midpoint of the edge after corner i. */
  method EdgeMidPoint(verts: seq<Vertex>, tris: seq<Triangle>, t: nat, i: nat, memo: map<Vec3, Vec3>, angle: (real, real) -> real, ghost s0: Mesh)
    returns (mp: Vec3)
    requires WellFormed(s0) && tris == s0.tris && Memo(s0, verts, memo, angle) && CornerFansOk(s0, t) && i < 3
    requires forall k :: 0 <= k < 3 ==> s0.verts[s0.tris[t].Corner(k)].pos in memo
    ensures mp == Mid(s0, t, i, angle)
  {
    MidCorner(s0, verts, tris, memo, t, i, angle);
    var vi := verts[tris[t].Corner(i)];
    mp := MidPoint(verts, tris, vi, t, i);
  }

  lemma PrefixAll<T>(s: seq<T>)
    ensures s[..|s|] == s
  {
  }

  /** The barycentric test as getBiome computes it is Hits. */
  lemma HitsOf(q: Points, x: real, y: real, den: real, hit: bool)
    requires den == (q[1].y - q[2].y) * (q[0].x - q[2].x) + (q[2].x - q[1].x) * (q[0].y - q[2].y)
    requires hit == (den != 0.0 &&
      var s := ((q[1].y - q[2].y) * (x - q[2].x) + (q[2].x - q[1].x) * (y - q[2].y)) / den;
      var t := ((q[2].y - q[0].y) * (x - q[2].x) + (q[0].x - q[2].x) * (y - q[2].y)) / den;
      0.0 <= s <= 1.0 && 0.0 <= t <= 1.0 && s + t <= 1.0)
    ensures hit == Hits(q, x, y)
  {
  }

  /** One level of the terrain mesh: the vertices by position, the set of triangles and the
      subchunk buckets. Vertex and triangle pointers are indices into the two arenas. */
  /** Level `after` is level `dst` with the triangles of chunk (x, y) of the level below,
      `src`, as getTrianglesInChunk lists them, subdivided into it. The list is
      bound by a quantifier, so that the definition of Subdivided is only unfolded where a
      caller asks for it. */
  ghost predicate ChunkRefined(after: Mesh, dst: Mesh, src: Mesh, x: nat, y: nat, angle: (real, real) -> real)
    requires x < NB_CHUNKS && y < NB_CHUNKS
  {
    forall ts: seq<nat> {:trigger Subdivided(dst, src, ts, angle)}
      | WellFormed(dst) && WellFormed(src) && ts == ChunkTriangles(src, x, y) &&
        (forall i :: 0 <= i < |ts| ==> ts[i] < |src.tris|) ::
      after == Subdivided(dst, src, ts, angle)
  }

  /** ChunkRefined says exactly that `after` is Subdivided of the chunk's triangle list. */
  lemma ChunkRefinedIs(after: Mesh, dst: Mesh, src: Mesh, x: nat, y: nat, ts: seq<nat>, angle: (real, real) -> real)
    requires WellFormed(dst) && WellFormed(src) && x < NB_CHUNKS && y < NB_CHUNKS
    requires ts == ChunkTriangles(src, x, y) && forall i :: 0 <= i < |ts| ==> ts[i] < |src.tris|
    ensures ChunkRefined(after, dst, src, x, y, angle) <==> after == Subdivided(dst, src, ts, angle)
  {
    if after == Subdivided(dst, src, ts, angle) {
      forall ts': seq<nat> {:trigger Subdivided(dst, src, ts', angle)}
        | WellFormed(dst) && WellFormed(src) && ts' == ChunkTriangles(src, x, y) &&
          (forall i :: 0 <= i < |ts'| ==> ts'[i] < |src.tris|)
        ensures after == Subdivided(dst, src, ts', angle) {
      }
    }
  }

  class SubdivisionLevel {
    var vertexAt: map<Vec3, nat>
    var verts: seq<Vertex>
    var triangleAt: map<(nat, nat, nat), nat>
    var tris: seq<Triangle>
    var buckets: seq<seq<seq<nat>>>

    function State(): Mesh
      reads this
    {
      Mesh(vertexAt, verts, triangleAt, tris, buckets)
    }

    /** A level without vertices or triangles, with NB_CHUNKS^2 rows of GRID_SUBDIV^2 empty
        buckets. */
    constructor()
      ensures State() == EmptyMesh()
    {
      vertexAt, verts, triangleAt, tris := map[], [], map[], [];
      buckets := seq(NB_CHUNKS * NB_CHUNKS, _ => seq(GRID_SUBDIV * GRID_SUBDIV, _ => []));
    }

    /** addTriangle(p, biome). */
    method AddTriangle(p: Points, biome: Biome)
      requires VerticesIndexed(State()) && BucketsShaped(buckets) && PointsInWorld(p)
      modifies this
      ensures State() == AddTri(old(State()), p, biome)
    {
      var q := p;
      if CrossZ(p[0], p[1], p[2]) < 0.0 {
        q := [p[0], p[2], p[1]];
      }
      assert q == Oriented(p);
      ghost var m := State();
      InsertCorners(q);
      ghost var m1 := State();
      var key := (vertexAt[q[0]], vertexAt[q[1]], vertexAt[q[2]]);
      AddTriSteps(m, p, biome, q, m1, key);
      if key !in triangleAt {
        StoreNew(q, key, biome);
      }
    }

    /** The two statements of subdivideChunk that refine chunk (x, y): the chunk's triangles
        of the level below, `src`, as getTrianglesInChunk lists them, are subdivided into this
        level. */
    method SubdivideChunkFrom(src: SubdivisionLevel, x: nat, y: nat, angle: (real, real) -> real)
      requires src != this && WellFormed(State()) && WellFormed(src.State()) && x < NB_CHUNKS && y < NB_CHUNKS
      modifies this, src
      ensures ChunkRefined(State(), old(State()), old(src.State()), x, y, angle)
      ensures Resorted(old(src.State()), src.State(), angle)
      ensures WellFormed(State()) && WellFormed(src.State())
      ensures Extends(old(State()), State()) && Extends(old(src.State()), src.State())
    {
      var toSubdivide := src.GetTrianglesInChunk(x, y);
      forall i | 0 <= i < |toSubdivide| ensures toSubdivide[i] < |src.tris| {
        ChunkTrianglesSound(src.State(), x, y, toSubdivide[i]);
      }
      ghost var s0, d0 := src.State(), State();
      SubdivideTriangles(src, toSubdivide, angle);
      ChunkRefinedIs(State(), d0, s0, x, y, toSubdivide, angle);
    }

    /** One pass of the loop of subdivideTriangles: triangle t of the source level is split into
        its four children, which are added to this level. */
    method SubdivideOne(src: SubdivisionLevel, t: nat, memo: map<Vec3, Vec3>, angle: (real, real) -> real, ghost s0: Mesh)
      returns (memo': map<Vec3, Vec3>)
      requires src != this && WellFormed(State()) && WellFormed(s0) && CornerFansOk(s0, t)
      requires src.tris == s0.tris && Memo(s0, src.verts, memo, angle)
      modifies this, src
      ensures Memo(s0, src.verts, memo', angle)
      ensures unchanged(src`vertexAt, src`tris, src`triangleAt, src`buckets)
      ensures AllInWorld(Children(s0, t, angle)) && State() == AddAll(old(State()), Children(s0, t, angle))
    {
      memo' := SmoothCorners(src, t, memo, angle, s0);
      var tr := src.tris[t];
      var mids := MidPoints(src.verts, src.tris, t, memo', angle, s0);
      var vs := src.verts;
      assert tr.Corner(0) == tr.v0 && tr.Corner(1) == tr.v1 && tr.Corner(2) == tr.v2;
      MemoLookup(s0, vs, memo', tr.v0, angle);
      MemoLookup(s0, vs, memo', tr.v1, angle);
      MemoLookup(s0, vs, memo', tr.v2, angle);
      var sm := [memo'[vs[tr.v0].pos], memo'[vs[tr.v1].pos], memo'[vs[tr.v2].pos]];
      ChildrenOf(s0, t, angle, sm, mids);
      CornersInWorld(s0, t, angle);
      AddQuad(sm, mids, tr.biome);
    }

    /** The third loop of subdivideTriangles and the last call: the four children built from the
        smoothed corners sm and the midpoints mids, added one after the other. */
    method AddQuad(sm: seq<Vec3>, mids: seq<Vec3>, biome: Biome)
      requires WellFormed(State()) && |sm| == 3 && |mids| == 3
      requires AllInWorld(Quad(sm[0], sm[1], sm[2], mids[0], mids[1], mids[2], biome))
      modifies this
      ensures State() == AddAll(old(State()), Quad(sm[0], sm[1], sm[2], mids[0], mids[1], mids[2], biome))
    {
      ghost var cs := Quad(sm[0], sm[1], sm[2], mids[0], mids[1], mids[2], biome);
      ghost var m := State();
      var i := 0;
      while i < 3
        invariant i <= 3 && State() == AddAll(m, cs[..i])
      {
        AddCorner(m, cs, sm, mids, biome, i);
        i := i + 1;
      }
      QuadLast(sm, mids, biome);
      AddChild(m, cs, i, mids, biome);
      PrefixAll(cs);
    }

    /** One pass of the third loop: the child of smoothed corner i. */
    method AddCorner(ghost m: Mesh, ghost cs: seq<Child>, sm: seq<Vec3>, mids: seq<Vec3>, biome: Biome, i: nat)
      requires WellFormed(m) && |sm| == 3 && |mids| == 3 && i < 3
      requires cs == Quad(sm[0], sm[1], sm[2], mids[0], mids[1], mids[2], biome) && AllInWorld(cs)
      requires State() == AddAll(m, cs[..i])
      modifies this
      ensures State() == AddAll(m, cs[..i + 1])
    {
      QuadAt(sm, mids, biome, i, (i + 1) % 3);
      AddChild(m, cs, i, [sm[i], mids[(i + 1) % 3], mids[i]], biome);
    }

    /** Child k of cs, added after the k before it. */
    method AddChild(ghost m: Mesh, ghost cs: seq<Child>, k: nat, p: Points, biome: Biome)
      requires WellFormed(m) && AllInWorld(cs) && k < |cs| && cs[k] == Child(p, biome)
      requires State() == AddAll(m, cs[..k])
      modifies this
      ensures State() == AddAll(m, cs[..k + 1])
    {
      AddAllStep(m, cs, k);
      AddTriangle(p, biome);
    }

    /** subdivideTriangles(ts): the triangles ts of level src, smoothed and split, are added to
        this level. The memo of smoothed positions lives for one call; the only change to src is
        that the fans of the vertices met are sorted. */
    method SubdivideTriangles(src: SubdivisionLevel, ts: seq<nat>, angle: (real, real) -> real)
      requires src != this && WellFormed(State()) && WellFormed(src.State())
      requires forall i :: 0 <= i < |ts| ==> ts[i] < |src.tris|
      modifies this, src
      ensures State() == Subdivided(old(State()), old(src.State()), ts, angle)
      ensures WellFormed(State()) && WellFormed(src.State())
      ensures unchanged(src`vertexAt, src`tris, src`triangleAt, src`buckets)
      ensures |src.verts| == old(|src.verts|)
      ensures forall v :: 0 <= v < |src.verts| ==>
        src.verts[v] == old(src.verts[v]) || src.verts[v] == SortedVertex(old(src.State()), v, angle)
      ensures Resorted(old(src.State()), src.State(), angle)
      ensures Extends(old(State()), State()) && Extends(old(src.State()), src.State())
    {
      ghost var s0 := src.State();
      ghost var m0 := State();
      WellFormedCornerFans(s0, ts);
      ChildrenInWorld(s0, ts, angle);
      var memo: map<Vec3, Vec3> := map[];
      assert Memo(s0, src.verts, memo, angle);
      for j := 0 to |ts|
        invariant Memo(s0, src.verts, memo, angle) && unchanged(src`vertexAt, src`tris, src`triangleAt, src`buckets)
        invariant CornersOk(s0, ts[..j]) && AllInWorld(AllChildren(s0, ts[..j], angle))
        invariant State() == AddAll(m0, AllChildren(s0, ts[..j], angle))
      {
        memo := SubdivideNth(src, ts, j, memo, angle, s0, m0);
      }
      PrefixAll(ts);
      MemoWellFormed(s0, src.verts, memo, angle);
      assert src.State() == s0.(verts := src.verts);
      forall v | 0 <= v < |src.verts|
        ensures src.verts[v] == s0.verts[v] || src.verts[v] == SortedVertex(s0, v, angle)
      {
        assert MemoAt(s0, src.verts, memo, v, angle);
      }
      AddAllExtends(m0, AllChildren(s0, ts, angle));
      ResortedExtends(s0, src.State(), angle);
    }

    /** One pass of the loop of subdivideTriangles: the children of ts[j] follow those of the
        triangles listed before it. */
    method SubdivideNth(src: SubdivisionLevel, ts: seq<nat>, j: nat, memo: map<Vec3, Vec3>,
                        angle: (real, real) -> real, ghost s0: Mesh, ghost m0: Mesh)
      returns (memo': map<Vec3, Vec3>)
      requires src != this && WellFormed(s0) && WellFormed(m0) && j < |ts| && CornersOk(s0, ts)
      requires src.tris == s0.tris && Memo(s0, src.verts, memo, angle)
      requires AllInWorld(AllChildren(s0, ts[..j], angle))
      requires State() == AddAll(m0, AllChildren(s0, ts[..j], angle))
      modifies this, src
      ensures Memo(s0, src.verts, memo', angle)
      ensures unchanged(src`vertexAt, src`tris, src`triangleAt, src`buckets)
      ensures CornersOk(s0, ts[..j + 1]) && AllInWorld(AllChildren(s0, ts[..j + 1], angle))
      ensures State() == AddAll(m0, AllChildren(s0, ts[..j + 1], angle))
    {
      AllChildrenSnoc(s0, ts, j, angle);
      assert CornerFansOk(s0, ts[j]);
      memo' := SubdivideOne(src, ts[j], memo, angle, s0);
      AddAllConcat(m0, AllChildren(s0, ts[..j], angle), Children(s0, ts[j], angle));
    }

    /** The branch of addTriangle for a triangle not stored yet. */
    method StoreNew(q: Points, key: (nat, nat, nat), biome: Biome)
      requires key.0 < |verts| && key.1 < |verts| && key.2 < |verts| && PointsInWorld(q) && BucketsShaped(buckets)
      modifies this
      ensures State() == StoreTriangle(old(State()), q, key, biome)
    {
      var t := |tris|;
      tris := tris + [Triangle(key.0, key.1, key.2, biome)];
      triangleAt := triangleAt[key := t];
      AdjoinCorners(key, t);
      BoxOfLoops(q);
      RegisterBox(t, BoxOf(q));
    }

    /** AddTri spelled out in the steps the method takes. */
    static lemma AddTriSteps(m: Mesh, p: Points, biome: Biome, q: Points, m1: Mesh, key: (nat, nat, nat))
      requires VerticesIndexed(m) && PointsInWorld(p)
      requires q == Oriented(p) && m1 == WithCorners(m, q, 3) && key == KeyFor(m1, q)
      ensures key.0 < |m1.verts| && key.1 < |m1.verts| && key.2 < |m1.verts| && PointsInWorld(q)
      ensures AddTri(m, p, biome) == if key in m1.triangleAt then m1 else StoreTriangle(m1, q, key, biome)
    {
    }

    /** The vertex loop of addTriangle: a vertex for each corner not stored yet. */
    method InsertCorners(q: Points)
      requires VerticesIndexed(State())
      modifies this
      ensures State() == WithCorners(old(State()), q, 3)
    {
      ghost var m := State();
      for i := 0 to 3
        invariant State() == WithCorners(m, q, i)
      {
        if q[i] !in vertexAt {
          vertexAt := vertexAt[q[i] := |verts|];
          verts := verts + [Vertex(q[i], [], false)];
        }
      }
    }

    /** The fan loop of addTriangle: addAdjacentTriangle(t) on each corner. */
    method AdjoinCorners(key: (nat, nat, nat), t: nat)
      requires key.0 < |verts| && key.1 < |verts| && key.2 < |verts|
      modifies this
      ensures verts == AdjoinAll(old(verts), [key.0, key.1, key.2], t)
      ensures vertexAt == old(vertexAt) && triangleAt == old(triangleAt) && tris == old(tris) && buckets == old(buckets)
    {
      var corners := [key.0, key.1, key.2];
      for i := 0 to 3
        invariant verts == AdjoinAll(old(verts), corners[..i], t)
        invariant vertexAt == old(vertexAt) && triangleAt == old(triangleAt) && tris == old(tris) && buckets == old(buckets)
      {
        assert corners[..i + 1][..i] == corners[..i];
        verts := verts[corners[i] := AddAdjacentTriangle(verts[corners[i]], t)];
      }
      assert corners[..3] == corners;
    }

    /** The four nested loops: t is appended to every bucket the box covers. */
    method RegisterBox(t: nat, box: Box)
      requires BucketsShaped(buckets) && LoopBox(box)
      modifies this
      ensures buckets == Register(old(buckets), t, box)
      ensures vertexAt == old(vertexAt) && verts == old(verts) && triangleAt == old(triangleAt) && tris == old(tris)
    {
      ghost var b0 := buckets;
      var i := box.lo.cx;
      while i <= box.hi.cx
        invariant BucketsShaped(buckets)
        invariant vertexAt == old(vertexAt) && verts == old(verts) && triangleAt == old(triangleAt) && tris == old(tris)
        invariant forall c: nat, s: nat :: Cell(c, s) ==> Pushed(buckets, b0, t, c, s,
            OnAxis(box.lo.cx, box.lo.sx, box.hi.cx, box.hi.sx, c / NB_CHUNKS, s / GRID_SUBDIV) &&
            OnAxis(box.lo.cy, box.lo.sy, box.hi.cy, box.hi.sy, c % NB_CHUNKS, s % GRID_SUBDIV) &&
            c / NB_CHUNKS < i)
      {
        RegisterColumn(t, box, i);
        i := i + 1;
      }
      forall c | 0 <= c < |b0| ensures buckets[c] == Register(b0, t, box)[c] {
        forall s | 0 <= s < GRID_SUBDIV * GRID_SUBDIV ensures buckets[c][s] == Register(b0, t, box)[c][s] {
          LoopsCover(box, c, s);
        }
      }
    }

    /** The loop over j for chunk column i. */
    method RegisterColumn(t: nat, box: Box, i: nat)
      requires BucketsShaped(buckets) && LoopBox(box) && box.lo.cx <= i <= box.hi.cx
      modifies this
      ensures BucketsShaped(buckets)
      ensures vertexAt == old(vertexAt) && verts == old(verts) && triangleAt == old(triangleAt) && tris == old(tris)
      ensures forall c: nat, s: nat :: Cell(c, s) ==> Pushed(buckets, old(buckets), t, c, s,
          c / NB_CHUNKS == i && FirstSub(box.lo.cx, box.lo.sx, i) <= s / GRID_SUBDIV < EndSub(box.hi.cx, box.hi.sx, i) &&
          OnAxis(box.lo.cy, box.lo.sy, box.hi.cy, box.hi.sy, c % NB_CHUNKS, s % GRID_SUBDIV))
    {
      var j := box.lo.cy;
      while j <= box.hi.cy
        invariant BucketsShaped(buckets)
        invariant vertexAt == old(vertexAt) && verts == old(verts) && triangleAt == old(triangleAt) && tris == old(tris)
        invariant forall c: nat, s: nat :: Cell(c, s) ==> Pushed(buckets, old(buckets), t, c, s,
            c / NB_CHUNKS == i && FirstSub(box.lo.cx, box.lo.sx, i) <= s / GRID_SUBDIV < EndSub(box.hi.cx, box.hi.sx, i) &&
            OnAxis(box.lo.cy, box.lo.sy, box.hi.cy, box.hi.sy, c % NB_CHUNKS, s % GRID_SUBDIV) && c % NB_CHUNKS < j)
      {
        RegisterChunk(t, box, i, j);
        j := j + 1;
      }
    }

    /** The loop over k for chunk (i, j). */
    method RegisterChunk(t: nat, box: Box, i: nat, j: nat)
      requires BucketsShaped(buckets) && LoopBox(box) && i <= box.hi.cx && j <= box.hi.cy
      modifies this
      ensures BucketsShaped(buckets)
      ensures vertexAt == old(vertexAt) && verts == old(verts) && triangleAt == old(triangleAt) && tris == old(tris)
      ensures forall c: nat, s: nat :: Cell(c, s) ==> Pushed(buckets, old(buckets), t, c, s,
          c == i * NB_CHUNKS + j && FirstSub(box.lo.cx, box.lo.sx, i) <= s / GRID_SUBDIV < EndSub(box.hi.cx, box.hi.sx, i) &&
          FirstSub(box.lo.cy, box.lo.sy, j) <= s % GRID_SUBDIV < EndSub(box.hi.cy, box.hi.sy, j))
    {
      var k := FirstSub(box.lo.cx, box.lo.sx, i);
      while k < EndSub(box.hi.cx, box.hi.sx, i)
        invariant k == FirstSub(box.lo.cx, box.lo.sx, i) || k <= EndSub(box.hi.cx, box.hi.sx, i)
        invariant BucketsShaped(buckets)
        invariant vertexAt == old(vertexAt) && verts == old(verts) && triangleAt == old(triangleAt) && tris == old(tris)
        invariant forall c: nat, s: nat :: Cell(c, s) ==> Pushed(buckets, old(buckets), t, c, s,
            c == i * NB_CHUNKS + j && FirstSub(box.lo.cx, box.lo.sx, i) <= s / GRID_SUBDIV < k &&
            FirstSub(box.lo.cy, box.lo.sy, j) <= s % GRID_SUBDIV < EndSub(box.hi.cy, box.hi.sy, j))
      {
        RegisterStrip(t, box, i * NB_CHUNKS + j, j, k);
        k := k + 1;
      }
    }

    /** The loop over l: bucket k * GRID_SUBDIV + l of row c, for the l of chunk row j. */
    method RegisterStrip(t: nat, box: Box, c0: nat, j: nat, k: nat)
      requires BucketsShaped(buckets) && LoopBox(box) && c0 < NB_CHUNKS * NB_CHUNKS && k < GRID_SUBDIV
      modifies this
      ensures BucketsShaped(buckets)
      ensures vertexAt == old(vertexAt) && verts == old(verts) && triangleAt == old(triangleAt) && tris == old(tris)
      ensures forall c: nat, s: nat :: Cell(c, s) ==> Pushed(buckets, old(buckets), t, c, s,
          c == c0 && s / GRID_SUBDIV == k && FirstSub(box.lo.cy, box.lo.sy, j) <= s % GRID_SUBDIV < EndSub(box.hi.cy, box.hi.sy, j))
    {
      var l := FirstSub(box.lo.cy, box.lo.sy, j);
      while l < EndSub(box.hi.cy, box.hi.sy, j)
        invariant l == FirstSub(box.lo.cy, box.lo.sy, j) || l <= EndSub(box.hi.cy, box.hi.sy, j)
        invariant BucketsShaped(buckets)
        invariant vertexAt == old(vertexAt) && verts == old(verts) && triangleAt == old(triangleAt) && tris == old(tris)
        invariant forall c: nat, s: nat :: Cell(c, s) ==> Pushed(buckets, old(buckets), t, c, s,
            c == c0 && s / GRID_SUBDIV == k && FirstSub(box.lo.cy, box.lo.sy, j) <= s % GRID_SUBDIV < l)
      {
        var s0 := k * GRID_SUBDIV + l;
        buckets := buckets[c0 := buckets[c0][s0 := buckets[c0][s0] + [t]]];
        l := l + 1;
      }
    }

    /** isOcean(x, y): some subchunk of chunk (x, y) has no triangle. */
    method IsOcean(x: nat, y: nat) returns (r: bool)
      requires BucketsShaped(buckets) && x < NB_CHUNKS && y < NB_CHUNKS
      ensures r <==> exists s :: 0 <= s < GRID_SUBDIV * GRID_SUBDIV && buckets[ChunkIndex(x, y)][s] == []
      ensures r == MeshQuery.IsOcean(State(), x, y)
    {
      var row := buckets[x * NB_CHUNKS + y];
      assert row == buckets[ChunkIndex(x, y)] && |row| == GRID_SUBDIV * GRID_SUBDIV;
      var i := 0;
      while i < |row|
        invariant i <= |row| && forall s :: 0 <= s < i ==> row[s] != []
      {
        if |row[i]| == 0 {
          assert row[i] == [];
          return true;
        }
        i := i + 1;
      }
      return false;
    }

    /** getTrianglesInChunk(x, y): the chunk's buckets appended, sorted with compTri and
        stripped of repeated triangles. */
    method GetTrianglesInChunk(x: nat, y: nat) returns (res: seq<nat>)
      requires BucketsShaped(buckets) && x < NB_CHUNKS && y < NB_CHUNKS
      ensures res == ChunkTriangles(State(), x, y)
    {
      var row := buckets[x * NB_CHUNKS + y];
      res := [];
      for i := 0 to |row|
        invariant res == Concat(row[..i])
      {
        assert row[..i + 1][..i] == row[..i];
        res := res + row[i];
      }
      assert row[..|row|] == row;
      res := SortBy(res, TriLess(State()));
      res := UniqueBy(res, TriKey(State()));
    }

    /** getBiome(pos): the biome of the first triangle of the point's bucket whose barycentric
        test accepts the point, NO_DEFINED_BIOME when none does. */
    method GetBiome(x: real, y: real) returns (b: Biome)
      requires WellFormed(State()) && OnMap(x, y)
      ensures b == BiomeAt(State(), x, y)
    {
      var info := GetSubChunkInfo(x, y);
      ChunkLimit(x);
      ChunkLimit(y);
      var toTest := buckets[info.cx * NB_CHUNKS + info.cy][info.sx * GRID_SUBDIV + info.sy];
      assert toTest == NearTriangles(State(), x, y);
      forall j | 0 <= j < |toTest| ensures toTest[j] < |tris| {
        NearBucketEntry(State(), x, y, toTest[j]);
      }
      var i := 0;
      while i < |toTest|
        invariant i <= |toTest| && forall j :: 0 <= j < i ==> !HitAt(State(), toTest, x, y, j)
      {
        var tr := tris[toTest[i]];
        assert tr.InRange(|verts|);
        var q := [verts[tr.v0].pos, verts[tr.v1].pos, verts[tr.v2].pos];
        assert q == TriPoints(State(), toTest[i]);
        var den := (q[1].y - q[2].y) * (q[0].x - q[2].x) + (q[2].x - q[1].x) * (q[0].y - q[2].y);
        var hit := false;
        if den != 0.0 {
          var s := ((q[1].y - q[2].y) * (x - q[2].x) + (q[2].x - q[1].x) * (y - q[2].y)) / den;
          var t := ((q[2].y - q[0].y) * (x - q[2].x) + (q[0].x - q[2].x) * (y - q[2].y)) / den;
          hit := 0.0 <= s <= 1.0 && 0.0 <= t <= 1.0 && s + t <= 1.0;
        }
        HitsOf(q, x, y, den, hit);
        if hit {
          FirstBiomeFirstHit(State(), toTest, x, y, i);
          return tr.biome;
        }
        i := i + 1;
      }
      FirstBiomeNone(State(), toTest, x, y);
      return NO_DEFINED_BIOME;
    }
  }
}
