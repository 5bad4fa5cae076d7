/**
  SubdivisionLevel::subdivideTriangles as a specification on values
  (src/terrain/terrainGeometry.cpp:210-288): the Loop-style smoothing of the old vertices, the
  edge midpoints that depend on the neighbour across the edge, the four children of every
  triangle and their insertion, one addTriangle call after another, into the next level.
 */
module Subdivision {
  import opened Wrappers
  import opened Sorting
  import opened MeshModel
  import opened MeshInsert
  import opened Seqs

  // ---------------------------------------------------------------------------------------
  // The fans as the subdivision reads them
  // ---------------------------------------------------------------------------------------

  /** Vertex v of the source level after sortTriangles, which the loop calls before it reads
      the fan of a vertex for the first time. */
  function SortedVertex(src: Mesh, v: nat, angle: (real, real) -> real): Vertex
    requires v < |src.verts|
  {
    SortTriangles(src.verts, src.tris, src.verts[v], angle)
  }

  /** Sorting keeps the fan around its vertex and non-empty. */
  lemma SortedVertexFan(src: Mesh, v: nat, angle: (real, real) -> real)
    requires v < |src.verts| && FanOkAt(src, v)
    ensures var sv := SortedVertex(src, v, angle);
      sv.pos == src.verts[v].pos && |sv.fan| > 0 && FanAround(src.verts, src.tris, sv.fan, sv.pos)
  {
    var vx := src.verts[v];
    var sv := SortedVertex(src, v, angle);
    assert |sv.fan| == |multiset(sv.fan)| == |multiset(vx.fan)| == |vx.fan|;
    forall t | t in sv.fan ensures t in vx.fan {
      assert t in multiset(sv.fan);
    }
  }

  // ---------------------------------------------------------------------------------------
  // Smoothing an old vertex
  // ---------------------------------------------------------------------------------------

  /** The weight of each neighbour of an interior vertex with n adjacent triangles. */
  function Beta(n: nat): (b: real)
    requires n > 0
    ensures 0.0 < b && n as real * b <= 1.0
  {
    if n == 3 then 3.0 / 16.0 else 3.0 / (n as real * 8.0)
  }

  /** The neighbour that triangle t contributes to the ring of p: its vertex after p. */
  function Neighbour(verts: seq<Vertex>, tris: seq<Triangle>, t: nat, p: Vec3): Vec3
    requires t < |tris| && tris[t].InRange(|verts|) && Touches(verts, tris[t], p)
  {
    verts[Turn(verts, tris[t], p, 1)].pos
  }

  /** `acc` plus beta times the neighbour of every triangle of `fan`, added in fan order. */
  function Ring(acc: Vec3, verts: seq<Vertex>, tris: seq<Triangle>, fan: seq<nat>, p: Vec3, beta: real): Vec3
    requires FanAround(verts, tris, fan, p)
  {
    if fan == [] then acc
    else
      var t := fan[|fan| - 1];
      assert t in fan;
      FanInit(verts, tris, fan, p);
      Add(Ring(acc, verts, tris, fan[..|fan| - 1], p, beta), Scale(beta, Neighbour(verts, tris, t, p)))
  }

  /** The new position of an old vertex: 3/4 of itself and 1/8 of each border neighbour when
      getBorder reports a gap; otherwise (1 - n beta) of itself plus beta of each ring neighbour.
      A border whose first position is the origin is taken for "no border", as in the code. */
  function Smooth(verts: seq<Vertex>, tris: seq<Triangle>, vx: Vertex): Vec3
    requires FanAround(verts, tris, vx.fan, vx.pos) && |vx.fan| > 0
  {
    var b := Border(verts, tris, vx);
    if b.0 != Zero then BorderMask(vx.pos, b.0, b.1) else InteriorMask(verts, tris, vx)
  }

  function BorderMask(p: Vec3, b0: Vec3, b1: Vec3): Vec3 {
    Add(Add(Scale(3.0 / 4.0, p), Scale(1.0 / 8.0, b0)), Scale(1.0 / 8.0, b1))
  }

  function InteriorMask(verts: seq<Vertex>, tris: seq<Triangle>, vx: Vertex): Vec3
    requires FanAround(verts, tris, vx.fan, vx.pos) && |vx.fan| > 0
  {
    WeightedRing(verts, tris, vx, Beta(|vx.fan|))
  }

  /** (1 - n beta) times the vertex plus beta times each of its n ring neighbours. */
  function WeightedRing(verts: seq<Vertex>, tris: seq<Triangle>, vx: Vertex, beta: real): Vec3
    requires FanAround(verts, tris, vx.fan, vx.pos)
  {
    Ring(Scale(1.0 - |vx.fan| as real * beta, vx.pos), verts, tris, vx.fan, vx.pos, beta)
  }

  // ---------------------------------------------------------------------------------------
  // Edge midpoints
  // ---------------------------------------------------------------------------------------

  /** The new point on edge (v_i, v_{i+2}) of triangle t, with vi the sorted vertex i: the
      3/8-3/8-1/8-1/8 mask when getNextTri gives the neighbour across the edge and it has the same
      biome, the plain average otherwise. */
  function MidPoint(verts: seq<Vertex>, tris: seq<Triangle>, vi: Vertex, t: nat, i: nat): Vec3
    requires t < |tris| && tris[t].InRange(|verts|) && i < 3
    requires FanAround(verts, tris, vi.fan, vi.pos) && vi.pos == Pos(verts, tris[t], i)
  {
    var tr := tris[t];
    var a, b, c := Pos(verts, tr, i), Pos(verts, tr, (i + 1) % 3), Pos(verts, tr, (i + 2) % 3);
    match NextTri(verts, tris, vi, t)
    case Some(n) =>
      assert n in vi.fan;
      if tris[n].biome == tr.biome then
        Add(Scale(3.0 / 8.0, Add(a, c)), Scale(1.0 / 8.0, Add(b, verts[Turn(verts, tris[n], a, 2)].pos)))
      else Scale(1.0 / 2.0, Add(a, c))
    case None => Scale(1.0 / 2.0, Add(a, c))
  }

  /** Across a seam (a neighbour of another biome) or a free edge the midpoint is the exact
      average of the two ends, whatever the rest of the fan looks like. */
  lemma MidPointAtSeam(verts: seq<Vertex>, tris: seq<Triangle>, vi: Vertex, t: nat, i: nat)
    requires t < |tris| && tris[t].InRange(|verts|) && i < 3
    requires FanAround(verts, tris, vi.fan, vi.pos) && vi.pos == Pos(verts, tris[t], i)
    requires var n := NextTri(verts, tris, vi, t); n.None? || tris[n.value].biome != tris[t].biome
    ensures var a, c := Pos(verts, tris[t], i), Pos(verts, tris[t], (i + 2) % 3);
      MidPoint(verts, tris, vi, t, i) == Vec3((a.x + c.x) / 2.0, (a.y + c.y) / 2.0, (a.z + c.z) / 2.0)
  {
  }

  // ---------------------------------------------------------------------------------------
  // The children of a triangle
  // ---------------------------------------------------------------------------------------

  /** A triangle handed to addTriangle: its corners and its biome. */
  datatype Child = Child(p: Points, biome: Biome)

  /** What subdivideTriangles needs of a source triangle: its corners exist and their fans are
      non-empty and around them. */
  ghost predicate CornerFansOk(src: Mesh, t: nat) {
    t < |src.tris| && src.tris[t].InRange(|src.verts|) &&
    FanOkAt(src, src.tris[t].v0) && FanOkAt(src, src.tris[t].v1) && FanOkAt(src, src.tris[t].v2)
  }

  lemma WellFormedCornerFans(src: Mesh, ts: seq<nat>)
    requires WellFormed(src) && forall i :: 0 <= i < |ts| ==> ts[i] < |src.tris|
    ensures CornersOk(src, ts)
  {
    forall i | 0 <= i < |ts| ensures CornerFansOk(src, ts[i]) {
      var tr := src.tris[ts[i]];
      assert tr.InRange(|src.verts|);
      assert FanOkAt(src, tr.v0) && FanOkAt(src, tr.v1) && FanOkAt(src, tr.v2);
    }
  }

  function Smoothed(src: Mesh, v: nat, angle: (real, real) -> real): Vec3
    requires v < |src.verts| && FanOkAt(src, v)
  {
    SortedVertexFan(src, v, angle);
    Smooth(src.verts, src.tris, SortedVertex(src, v, angle))
  }

  function Mid(src: Mesh, t: nat, i: nat, angle: (real, real) -> real): Vec3
    requires CornerFansOk(src, t) && i < 3
  {
    var v := src.tris[t].Corner(i);
    assert FanOkAt(src, v);
    SortedVertexFan(src, v, angle);
    MidPoint(src.verts, src.tris, SortedVertex(src, v, angle), t, i)
  }

  /** The four addTriangle calls for triangle t: (smoothed v_i, mid[i+1], mid[i]) for i = 0, 1, 2,
      then the triangle of the three midpoints, all with t's biome. */
  function Children(src: Mesh, t: nat, angle: (real, real) -> real): (r: seq<Child>)
    requires CornerFansOk(src, t)
    ensures |r| == 4 && forall k :: 0 <= k < 4 ==> r[k].biome == src.tris[t].biome
  {
    var tr := src.tris[t];
    Quad(Smoothed(src, tr.v0, angle), Smoothed(src, tr.v1, angle), Smoothed(src, tr.v2, angle),
      Mid(src, t, 0, angle), Mid(src, t, 1, angle), Mid(src, t, 2, angle), tr.biome)
  }

  /** The four children built from the smoothed corners s_i and the midpoints m_i. */
  function Quad(s0: Vec3, s1: Vec3, s2: Vec3, m0: Vec3, m1: Vec3, m2: Vec3, biome: Biome): (r: seq<Child>)
    ensures |r| == 4 && forall k :: 0 <= k < 4 ==> r[k].biome == biome
  {
    [Child([s0, m1, m0], biome), Child([s1, m2, m1], biome), Child([s2, m0, m2], biome),
     Child([m0, m1, m2], biome)]
  }

  /** Child i < 3 joins smoothed corner i to the midpoints i + 1 and i; child 3 is the triangle of
      the midpoints. */
  lemma QuadAt(sm: seq<Vec3>, mids: seq<Vec3>, biome: Biome, i: nat, j: nat)
    requires |sm| == 3 && |mids| == 3 && i < 3 && j == (i + 1) % 3
    ensures Quad(sm[0], sm[1], sm[2], mids[0], mids[1], mids[2], biome)[i] == Child([sm[i], mids[j], mids[i]], biome)
  {
  }

  lemma QuadLast(sm: seq<Vec3>, mids: seq<Vec3>, biome: Biome)
    requires |sm| == 3 && |mids| == 3
    ensures Quad(sm[0], sm[1], sm[2], mids[0], mids[1], mids[2], biome)[3] == Child(mids, biome)
  {
    assert mids == [mids[0], mids[1], mids[2]];
  }

  /** The children of t from its smoothed corners and its midpoints. */
  lemma ChildrenOf(src: Mesh, t: nat, angle: (real, real) -> real, sm: seq<Vec3>, mids: seq<Vec3>)
    requires CornerFansOk(src, t) && |sm| == 3 && |mids| == 3
    requires sm[0] == Smoothed(src, src.tris[t].v0, angle) && sm[1] == Smoothed(src, src.tris[t].v1, angle)
    requires sm[2] == Smoothed(src, src.tris[t].v2, angle)
    requires mids[0] == Mid(src, t, 0, angle) && mids[1] == Mid(src, t, 1, angle) && mids[2] == Mid(src, t, 2, angle)
    ensures Children(src, t, angle) == Quad(sm[0], sm[1], sm[2], mids[0], mids[1], mids[2], src.tris[t].biome)
  {
  }

  /** The children of each listed triangle, one block of four per triangle. */
  function Blocks(src: Mesh, ts: seq<nat>, angle: (real, real) -> real): (r: seq<seq<Child>>)
    requires CornersOk(src, ts)
    ensures |r| == |ts|
  {
    seq(|ts|, i requires 0 <= i < |ts| => Children(src, ts[i], angle))
  }

  /** The children of the listed triangles, in the order of the list. */
  function AllChildren(src: Mesh, ts: seq<nat>, angle: (real, real) -> real): (r: seq<Child>)
    requires CornersOk(src, ts)
    ensures |r| == 4 * |ts|
  {
    var bs := Blocks(src, ts, angle);
    assert forall i :: 0 <= i < |bs| ==> |bs[i]| == 4;
    ConcatLength(bs);
    Concat(bs)
  }

  /** Child 4j + k carries the biome of the j-th listed triangle. */
  lemma AllChildrenBiome(src: Mesh, ts: seq<nat>, angle: (real, real) -> real, j: nat, k: nat)
    requires CornersOk(src, ts)
    requires j < |ts| && k < 4
    ensures AllChildren(src, ts, angle)[4 * j + k].biome == src.tris[ts[j]].biome
  {
    AllChildrenAt(src, ts, angle, j, k);
  }

  /** Child 4j + k is child k of the j-th listed triangle. */
  lemma AllChildrenAt(src: Mesh, ts: seq<nat>, angle: (real, real) -> real, j: nat, k: nat)
    requires CornersOk(src, ts)
    requires j < |ts| && k < 4
    ensures AllChildren(src, ts, angle)[4 * j + k] == Children(src, ts[j], angle)[k]
  {
    var bs := Blocks(src, ts, angle);
    assert forall i :: 0 <= i < |bs| ==> |bs[i]| == 4;
    ConcatAt(bs, j, k);
  }

  ghost predicate CornersOk(src: Mesh, ts: seq<nat>) {
    forall i :: 0 <= i < |ts| ==> CornerFansOk(src, ts[i])
  }

  ghost predicate AllInWorld(cs: seq<Child>) {
    forall k :: 0 <= k < |cs| ==> PointsInWorld(cs[k].p)
  }

  /** addTriangle for each child in turn. */
  function AddAll(m: Mesh, cs: seq<Child>): (r: Mesh)
    requires WellFormed(m) && AllInWorld(cs)
    ensures WellFormed(r)
  {
    if cs == [] then m
    else
      InWorldPrefix(cs, |cs| - 1);
      var m0 := AddAll(m, cs[..|cs| - 1]);
      AddTriWellFormed(m0, cs[|cs| - 1].p, cs[|cs| - 1].biome);
      AddTri(m0, cs[|cs| - 1].p, cs[|cs| - 1].biome)
  }

  lemma InWorldPrefix(cs: seq<Child>, k: nat)
    requires AllInWorld(cs) && k <= |cs|
    ensures AllInWorld(cs[..k])
  {
    forall i | 0 <= i < k ensures PointsInWorld(cs[..k][i].p) {
      assert cs[..k][i] == cs[i];
    }
  }

  /** One more addTriangle call. */
  lemma AddAllStep(m: Mesh, cs: seq<Child>, k: nat)
    requires WellFormed(m) && AllInWorld(cs)
    requires k < |cs|
    ensures AllInWorld(cs[..k]) && AllInWorld(cs[..k + 1]) && PointsInWorld(cs[k].p)
    ensures AddAll(m, cs[..k + 1]) == AddTri(AddAll(m, cs[..k]), cs[k].p, cs[k].biome)
  {
    InWorldPrefix(cs, k);
    InWorldPrefix(cs, k + 1);
    assert cs[..k + 1][..k] == cs[..k];
  }

  /** Adding a + b is adding a, then b. */
  lemma {:induction false} AddAllConcat(m: Mesh, a: seq<Child>, b: seq<Child>)
    requires WellFormed(m)
    requires AllInWorld(a) && AllInWorld(b)
    ensures AllInWorld(a + b)
    ensures AddAll(m, a + b) == AddAll(AddAll(m, a), b)
  {
    forall i | 0 <= i < |a + b| ensures PointsInWorld((a + b)[i].p) {
      if i < |a| { assert (a + b)[i] == a[i]; } else { assert (a + b)[i] == b[i - |a|]; }
    }
    if b != [] {
      var b0 := b[..|b| - 1];
      assert (a + b)[..|a + b| - 1] == a + b0;
      InWorldPrefix(b, |b| - 1);
      AddAllConcat(m, a, b0);
    } else {
      assert a + b == a;
    }
  }

  lemma CornersOkPrefix(src: Mesh, ts: seq<nat>, j: nat)
    requires CornersOk(src, ts) && j <= |ts|
    ensures CornersOk(src, ts[..j])
  {
    forall i | 0 <= i < j ensures CornerFansOk(src, ts[..j][i]) {
      assert ts[..j][i] == ts[i];
    }
  }

  /** The children of one more listed triangle come after those of the others. */
  lemma AllChildrenSnoc(src: Mesh, ts: seq<nat>, j: nat, angle: (real, real) -> real)
    requires CornersOk(src, ts)
    requires j < |ts|
    ensures CornersOk(src, ts[..j + 1]) && CornersOk(src, ts[..j])
    ensures AllChildren(src, ts[..j + 1], angle) == AllChildren(src, ts[..j], angle) + Children(src, ts[j], angle)
  {
    CornersOkPrefix(src, ts, j);
    CornersOkPrefix(src, ts, j + 1);
    BlocksPrefix(src, ts, j, angle);
    BlocksPrefix(src, ts, j + 1, angle);
    var bs := Blocks(src, ts, angle);
    assert bs[..j + 1][..j] == bs[..j];
    assert bs[..j + 1][j] == bs[j];
  }

  /** The blocks of the first n listed triangles are the first n blocks. */
  lemma BlocksPrefix(src: Mesh, ts: seq<nat>, n: nat, angle: (real, real) -> real)
    requires CornersOk(src, ts) && n <= |ts|
    ensures CornersOk(src, ts[..n]) && Blocks(src, ts[..n], angle) == Blocks(src, ts, angle)[..n]
  {
    CornersOkPrefix(src, ts, n);
    var short, bs := Blocks(src, ts[..n], angle), Blocks(src, ts, angle);
    forall i | 0 <= i < n ensures short[i] == bs[..n][i] {
      assert ts[..n][i] == ts[i];
    }
  }

  // ---------------------------------------------------------------------------------------
  // The children stay in the world square
  // ---------------------------------------------------------------------------------------

  /** Both plane coordinates of v lie in [0, w * MAX_COORD]. */
  predicate Within(v: Vec3, w: real) {
    0.0 <= v.x <= w * MAX_COORD as real && 0.0 <= v.y <= w * MAX_COORD as real
  }

  lemma ScaleWithin(k: real, p: Vec3)
    requires k >= 0.0 && InWorld(p)
    ensures Within(Scale(k, p), k)
  {
    var m := MAX_COORD as real;
    var q := Scale(k, p);
    ScaleLe(k, p.x, m);
    ScaleLe(k, p.y, m);
    assert 0.0 <= q.x <= k * m;
    assert 0.0 <= q.y <= k * m;
  }

  lemma ScaleLe(k: real, a: real, m: real)
    requires 0.0 <= k && 0.0 <= a <= m
    ensures 0.0 <= k * a <= k * m
  {
    NonNegProduct(k, a);
    NonNegProduct(k, m - a);
    assert k * (m - a) == k * m - k * a;
  }

  lemma NonNegProduct(a: real, b: real)
    requires a >= 0.0 && b >= 0.0
    ensures a * b >= 0.0
  {
  }

  /** n neighbours of weight beta each, added one at a time. */
  function Weight(n: nat, beta: real): real {
    if n == 0 then 0.0 else Weight(n - 1, beta) + beta
  }

  lemma {:induction false} WeightIsProduct(n: nat, beta: real)
    ensures Weight(n, beta) == n as real * beta
  {
    if n > 0 {
      WeightIsProduct(n - 1, beta);
      assert n as real * beta == (n - 1) as real * beta + beta;
    }
  }

  lemma {:induction false} RingWithin(acc: Vec3, w: real, verts: seq<Vertex>, tris: seq<Triangle>, fan: seq<nat>, p: Vec3, beta: real)
    requires FanAround(verts, tris, fan, p) && beta >= 0.0 && Within(acc, w)
    requires forall v :: 0 <= v < |verts| ==> InWorld(verts[v].pos)
    ensures Within(Ring(acc, verts, tris, fan, p, beta), w + Weight(|fan|, beta))
    decreases |fan|
  {
    if fan != [] {
      var t := fan[|fan| - 1];
      assert t in fan;
      var init := fan[..|fan| - 1];
      FanInit(verts, tris, fan, p);
      RingWithin(acc, w, verts, tris, init, p, beta);
      ScaleWithin(beta, Neighbour(verts, tris, t, p));
      var r0 := Ring(acc, verts, tris, init, p, beta);
      var s := Scale(beta, Neighbour(verts, tris, t, p));
      assert Ring(acc, verts, tris, fan, p, beta) == Add(r0, s);
      AddWithin(r0, s, w + Weight(|init|, beta), beta, w + Weight(|fan|, beta));
    }
  }

  lemma WithinOne(v: Vec3, w: real)
    requires Within(v, w) && w == 1.0
    ensures InWorld(v)
  {
  }

  lemma AddWithin(a: Vec3, b: Vec3, wa: real, wb: real, w: real)
    requires Within(a, wa) && Within(b, wb) && w == wa + wb
    ensures Within(Add(a, b), w)
  {
    var m := MAX_COORD as real;
    assert (wa + wb) * m == wa * m + wb * m;
  }

  lemma SmoothInWorld(verts: seq<Vertex>, tris: seq<Triangle>, vx: Vertex)
    requires FanAround(verts, tris, vx.fan, vx.pos) && |vx.fan| > 0 && InWorld(vx.pos)
    requires forall v :: 0 <= v < |verts| ==> InWorld(verts[v].pos)
    ensures InWorld(Smooth(verts, tris, vx))
  {
    var b := Border(verts, tris, vx);
    if b.0 != Zero {
      BorderInWorld(verts, tris, vx);
      BorderMaskInWorld(vx.pos, b.0, b.1);
    } else {
      InteriorMaskInWorld(verts, tris, vx);
    }
  }

  lemma BorderMaskInWorld(p: Vec3, b0: Vec3, b1: Vec3)
    requires InWorld(p) && InWorld(b0) && InWorld(b1)
    ensures InWorld(BorderMask(p, b0, b1))
  {
    ScaleWithin(3.0 / 4.0, p);
    ScaleWithin(1.0 / 8.0, b0);
    ScaleWithin(1.0 / 8.0, b1);
    var half := Add(Scale(3.0 / 4.0, p), Scale(1.0 / 8.0, b0));
    AddWithin(Scale(3.0 / 4.0, p), Scale(1.0 / 8.0, b0), 3.0 / 4.0, 1.0 / 8.0, 7.0 / 8.0);
    AddWithin(half, Scale(1.0 / 8.0, b1), 7.0 / 8.0, 1.0 / 8.0, 1.0);
    WithinOne(Add(half, Scale(1.0 / 8.0, b1)), 1.0);
  }

  lemma InteriorMaskInWorld(verts: seq<Vertex>, tris: seq<Triangle>, vx: Vertex)
    requires FanAround(verts, tris, vx.fan, vx.pos) && |vx.fan| > 0 && InWorld(vx.pos)
    requires forall v :: 0 <= v < |verts| ==> InWorld(verts[v].pos)
    ensures InWorld(InteriorMask(verts, tris, vx))
  {
    assert InteriorMask(verts, tris, vx) == WeightedRing(verts, tris, vx, Beta(|vx.fan|));
    InteriorInWorld(verts, tris, vx, Beta(|vx.fan|));
  }

  lemma InteriorInWorld(verts: seq<Vertex>, tris: seq<Triangle>, vx: Vertex, beta: real)
    requires FanAround(verts, tris, vx.fan, vx.pos) && InWorld(vx.pos)
    requires forall v :: 0 <= v < |verts| ==> InWorld(verts[v].pos)
    requires beta >= 0.0 && |vx.fan| as real * beta <= 1.0
    ensures InWorld(WeightedRing(verts, tris, vx, beta))
  {
    var w := 1.0 - |vx.fan| as real * beta;
    WeightedRingIsRing(verts, tris, vx, beta, w);
    ScaledRingInWorld(verts, tris, vx, beta, w);
  }

  /** The ring started from w times the vertex, with w + n beta == 1, stays in the world. */
  lemma ScaledRingInWorld(verts: seq<Vertex>, tris: seq<Triangle>, vx: Vertex, beta: real, w: real)
    requires FanAround(verts, tris, vx.fan, vx.pos) && InWorld(vx.pos)
    requires forall v :: 0 <= v < |verts| ==> InWorld(verts[v].pos)
    requires beta >= 0.0 && w >= 0.0 && w + |vx.fan| as real * beta == 1.0
    ensures InWorld(Ring(Scale(w, vx.pos), verts, tris, vx.fan, vx.pos, beta))
  {
    ScaleWithin(w, vx.pos);
    RingInWorld(Scale(w, vx.pos), w, verts, tris, vx.fan, vx.pos, beta);
  }

  lemma RingInWorld(acc: Vec3, w: real, verts: seq<Vertex>, tris: seq<Triangle>, fan: seq<nat>, p: Vec3, beta: real)
    requires FanAround(verts, tris, fan, p) && beta >= 0.0 && Within(acc, w)
    requires forall v :: 0 <= v < |verts| ==> InWorld(verts[v].pos)
    requires w + |fan| as real * beta == 1.0
    ensures InWorld(Ring(acc, verts, tris, fan, p, beta))
  {
    RingWithin(acc, w, verts, tris, fan, p, beta);
    WeightIsProduct(|fan|, beta);
    WithinOne(Ring(acc, verts, tris, fan, p, beta), w + Weight(|fan|, beta));
  }

  lemma BorderInWorld(verts: seq<Vertex>, tris: seq<Triangle>, vx: Vertex)
    requires FanAround(verts, tris, vx.fan, vx.pos) && |vx.fan| > 0
    requires forall v :: 0 <= v < |verts| ==> InWorld(verts[v].pos)
    ensures InWorld(Border(verts, tris, vx).0) && InWorld(Border(verts, tris, vx).1)
  {
  }

  lemma MidPointInWorld(verts: seq<Vertex>, tris: seq<Triangle>, vi: Vertex, t: nat, i: nat)
    requires t < |tris| && tris[t].InRange(|verts|) && i < 3
    requires FanAround(verts, tris, vi.fan, vi.pos) && vi.pos == Pos(verts, tris[t], i)
    requires forall v :: 0 <= v < |verts| ==> InWorld(verts[v].pos)
    ensures InWorld(MidPoint(verts, tris, vi, t, i))
  {
    var tr := tris[t];
    var a, b, c := Pos(verts, tr, i), Pos(verts, tr, (i + 1) % 3), Pos(verts, tr, (i + 2) % 3);
    assert InWorld(a) && InWorld(b) && InWorld(c);
    match NextTri(verts, tris, vi, t)
    case Some(n) =>
      assert n in vi.fan;
      var o := verts[Turn(verts, tris[n], a, 2)].pos;
      assert InWorld(o);
    case None =>
  }

  /** Subdivision keeps every new corner inside the world square: each is a weighted average,
      with non-negative weights, of positions of the source level. */
  lemma ChildrenInWorld(src: Mesh, ts: seq<nat>, angle: (real, real) -> real)
    requires VerticesInWorld(src) && CornersOk(src, ts)
    ensures AllInWorld(AllChildren(src, ts, angle))
  {
    var bs := Blocks(src, ts, angle);
    forall i | 0 <= i < |bs| ensures forall c: Child :: c in bs[i] ==> PointsInWorld(c.p) {
      CornersInWorld(src, ts[i], angle);
    }
    var cs := AllChildren(src, ts, angle);
    assert cs == Concat(bs);
    forall k | 0 <= k < |cs| ensures PointsInWorld(cs[k].p) {
      assert cs[k] in cs;
    }
  }

  lemma CornersInWorld(src: Mesh, t: nat, angle: (real, real) -> real)
    requires VerticesInWorld(src) && CornerFansOk(src, t)
    ensures forall k :: 0 <= k < 4 ==> PointsInWorld(Children(src, t, angle)[k].p)
  {
    var tr := src.tris[t];
    CornerInWorld(src, t, 0, angle);
    CornerInWorld(src, t, 1, angle);
    CornerInWorld(src, t, 2, angle);
    QuadInWorld(Smoothed(src, tr.v0, angle), Smoothed(src, tr.v1, angle), Smoothed(src, tr.v2, angle),
      Mid(src, t, 0, angle), Mid(src, t, 1, angle), Mid(src, t, 2, angle), tr.biome);
  }

  lemma QuadInWorld(s0: Vec3, s1: Vec3, s2: Vec3, m0: Vec3, m1: Vec3, m2: Vec3, biome: Biome)
    requires InWorld(s0) && InWorld(s1) && InWorld(s2) && InWorld(m0) && InWorld(m1) && InWorld(m2)
    ensures forall k :: 0 <= k < 4 ==> PointsInWorld(Quad(s0, s1, s2, m0, m1, m2, biome)[k].p)
  {
  }

  lemma CornerInWorld(src: Mesh, t: nat, i: nat, angle: (real, real) -> real)
    requires VerticesInWorld(src) && CornerFansOk(src, t) && i < 3
    ensures InWorld(Smoothed(src, src.tris[t].Corner(i), angle)) && InWorld(Mid(src, t, i, angle))
  {
    var v := src.tris[t].Corner(i);
    assert FanOkAt(src, v);
    SortedVertexFan(src, v, angle);
    SmoothInWorld(src.verts, src.tris, SortedVertex(src, v, angle));
    MidPointInWorld(src.verts, src.tris, SortedVertex(src, v, angle), t, i);
  }

  /** subdivideTriangles on values: every child of every listed triangle added to level m. */
  function Subdivided(m: Mesh, src: Mesh, ts: seq<nat>, angle: (real, real) -> real): (r: Mesh)
    requires WellFormed(m) && WellFormed(src) && forall i :: 0 <= i < |ts| ==> ts[i] < |src.tris|
    ensures WellFormed(r)
  {
    WellFormedCornerFans(src, ts);
    ChildrenInWorld(src, ts, angle);
    AddAll(m, AllChildren(src, ts, angle))
  }

  /** Inserting children never moves a vertex and never drops or reorders a stored triangle. */
  lemma {:induction false} AddAllExtends(m: Mesh, cs: seq<Child>)
    requires WellFormed(m) && AllInWorld(cs)
    ensures Extends(m, AddAll(m, cs))
    decreases |cs|
  {
    if cs != [] {
      var k := |cs| - 1;
      AddAllStep(m, cs, k);
      assert cs[..k + 1] == cs;
      AddAllExtends(m, cs[..k]);
      AddTriReusesVertices(AddAll(m, cs[..k]), cs[k].p, cs[k].biome);
      ExtendsTrans(m, AddAll(m, cs[..k]), AddAll(m, cs));
    }
  }

  /** The subdivided level extends the level it started from: it only gains vertices and
      triangles. */
  lemma SubdividedExtends(m: Mesh, src: Mesh, ts: seq<nat>, angle: (real, real) -> real)
    requires WellFormed(m) && WellFormed(src) && forall i :: 0 <= i < |ts| ==> ts[i] < |src.tris|
    ensures Extends(m, Subdivided(m, src, ts, angle))
  {
    WellFormedCornerFans(src, ts);
    ChildrenInWorld(src, ts, angle);
    AddAllExtends(m, AllChildren(src, ts, angle));
  }

  /** What subdivideTriangles leaves of its source level `a`: the same arenas, maps and
      buckets, and each vertex as it was or with its fan sorted by sortTriangles. */
  ghost predicate Resorted(a: Mesh, b: Mesh, angle: (real, real) -> real) {
    b.vertexAt == a.vertexAt && b.tris == a.tris && b.triangleAt == a.triangleAt &&
    b.buckets == a.buckets && |b.verts| == |a.verts| &&
    forall v :: 0 <= v < |a.verts| ==> b.verts[v] == a.verts[v] || b.verts[v] == SortedVertex(a, v, angle)
  }

  /** Sorting fans moves no vertex and no triangle. */
  lemma ResortedExtends(a: Mesh, b: Mesh, angle: (real, real) -> real)
    requires Resorted(a, b, angle)
    ensures Extends(a, b)
  {
    forall v | 0 <= v < |a.verts| ensures b.verts[v].pos == a.verts[v].pos {
      if b.verts[v] != a.verts[v] {
        assert b.verts[v] == SortedVertex(a, v, angle);
      }
    }
  }

  // ---------------------------------------------------------------------------------------
  // Sorting fans of the source level changes no smoothed vertex and no midpoint
  // ---------------------------------------------------------------------------------------

  lemma {:induction false} RingSame(acc: Vec3, verts: seq<Vertex>, verts': seq<Vertex>, tris: seq<Triangle>, fan: seq<nat>, p: Vec3, beta: real)
    requires SamePositions(verts, verts') && FanAround(verts, tris, fan, p)
    ensures FanAround(verts', tris, fan, p)
    ensures Ring(acc, verts', tris, fan, p, beta) == Ring(acc, verts, tris, fan, p, beta)
    decreases |fan|
  {
    FanAroundSame(verts, verts', tris, fan, p);
    if fan != [] {
      var t := fan[|fan| - 1];
      assert t in fan;
      FanInit(verts, tris, fan, p);
      RingSame(acc, verts, verts', tris, fan[..|fan| - 1], p, beta);
      TurnSame(verts, verts', tris[t], p, 1);
    }
  }

  lemma SmoothSame(verts: seq<Vertex>, verts': seq<Vertex>, tris: seq<Triangle>, vx: Vertex)
    requires SamePositions(verts, verts') && FanAround(verts, tris, vx.fan, vx.pos) && |vx.fan| > 0
    ensures FanAround(verts', tris, vx.fan, vx.pos)
    ensures Smooth(verts', tris, vx) == Smooth(verts, tris, vx)
  {
    FanAroundSame(verts, verts', tris, vx.fan, vx.pos);
    InteriorMaskSame(verts, verts', tris, vx);
    BorderSame(verts, verts', tris, vx);
    SmoothUnfold(verts, tris, vx);
    SmoothUnfold(verts', tris, vx);
  }

  lemma InteriorMaskSame(verts: seq<Vertex>, verts': seq<Vertex>, tris: seq<Triangle>, vx: Vertex)
    requires SamePositions(verts, verts') && FanAround(verts, tris, vx.fan, vx.pos) && |vx.fan| > 0
    requires FanAround(verts', tris, vx.fan, vx.pos)
    ensures InteriorMask(verts', tris, vx) == InteriorMask(verts, tris, vx)
  {
    var beta := Beta(|vx.fan|);
    assert InteriorMask(verts, tris, vx) == WeightedRing(verts, tris, vx, beta);
    assert InteriorMask(verts', tris, vx) == WeightedRing(verts', tris, vx, beta);
    WeightedRingSame(verts, verts', tris, vx, beta);
  }

  lemma WeightedRingSame(verts: seq<Vertex>, verts': seq<Vertex>, tris: seq<Triangle>, vx: Vertex, beta: real)
    requires SamePositions(verts, verts') && FanAround(verts, tris, vx.fan, vx.pos)
    requires FanAround(verts', tris, vx.fan, vx.pos)
    ensures WeightedRing(verts', tris, vx, beta) == WeightedRing(verts, tris, vx, beta)
  {
    var w := 1.0 - |vx.fan| as real * beta;
    WeightedRingIsRing(verts, tris, vx, beta, w);
    WeightedRingIsRing(verts', tris, vx, beta, w);
    RingSame(Scale(w, vx.pos), verts, verts', tris, vx.fan, vx.pos, beta);
  }

  lemma WeightedRingIsRing(verts: seq<Vertex>, tris: seq<Triangle>, vx: Vertex, beta: real, w: real)
    requires FanAround(verts, tris, vx.fan, vx.pos) && w == 1.0 - |vx.fan| as real * beta
    ensures WeightedRing(verts, tris, vx, beta) == Ring(Scale(w, vx.pos), verts, tris, vx.fan, vx.pos, beta)
  {
  }

  lemma SmoothUnfold(verts: seq<Vertex>, tris: seq<Triangle>, vx: Vertex)
    requires FanAround(verts, tris, vx.fan, vx.pos) && |vx.fan| > 0
    ensures var b := Border(verts, tris, vx);
      Smooth(verts, tris, vx) == if b.0 != Zero then BorderMask(vx.pos, b.0, b.1) else InteriorMask(verts, tris, vx)
  {
  }

  lemma MidPointSame(verts: seq<Vertex>, verts': seq<Vertex>, tris: seq<Triangle>, vi: Vertex, t: nat, i: nat)
    requires SamePositions(verts, verts') && t < |tris| && tris[t].InRange(|verts|) && i < 3
    requires FanAround(verts, tris, vi.fan, vi.pos) && vi.pos == Pos(verts, tris[t], i)
    ensures FanAround(verts', tris, vi.fan, vi.pos) && vi.pos == Pos(verts', tris[t], i)
    ensures MidPoint(verts', tris, vi, t, i) == MidPoint(verts, tris, vi, t, i)
  {
    var tr := tris[t];
    TouchesSame(verts, verts', tr, vi.pos);
    NextTriSame(verts, verts', tris, vi, t);
    match NextTri(verts, tris, vi, t)
    case Some(n) =>
      assert n in vi.fan;
      var a := Pos(verts, tr, i);
      TurnSame(verts, verts', tris[n], a, 2);
    case None =>
  }
}
