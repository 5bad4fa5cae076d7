/**
  The TerrainGeometry class of src/terrain/terrainGeometry.cpp: MAX_SUBDIV_LVL + 1 subdivision
  levels, the level reached by each chunk and the level reached by the whole map. Chunks are
  refined on demand, and a chunk is only refined once its eight neighbours have reached the
  level below, so that neighbouring chunks never differ by more than one level.
 */
module Terrain {
  import opened MeshModel
  import opened MeshInsert
  import opened MeshQuery
  import opened Subdivision
  import opened Levels

  /** Chunk (x, y) lies on the map. The source's coordinates are unsigned, and `x - 1` at
      x = 0 wraps to a value that fails the `x < NB_CHUNKS` test; this predicate is that test
      on signed coordinates. */
  predicate InChunks(x: int, y: int) {
    0 <= x < NB_CHUNKS && 0 <= y < NB_CHUNKS
  }

  /** The level reached by chunk (x, y). */
  function LvlAt(cl: seq<nat>, x: int, y: int): nat
    requires |cl| == NB_CHUNKS * NB_CHUNKS && InChunks(x, y)
  {
    cl[x * NB_CHUNKS + y]
  }

  /** Chunks (x, y) and (x', y') are equal or Moore neighbours. */
  predicate Adjacent(x: int, y: int, x': int, y': int) {
    -1 <= x - x' <= 1 && -1 <= y - y' <= 1
  }

  /** The chunk levels: one per chunk, none above MAX_SUBDIV_LVL, and no chunk more than one
      level above a neighbour. */
  ghost predicate Graded(cl: seq<nat>) {
    |cl| == NB_CHUNKS * NB_CHUNKS &&
    (forall c :: 0 <= c < |cl| ==> cl[c] <= MAX_SUBDIV_LVL) &&
    (forall x, y, x', y' :: InChunks(x, y) && InChunks(x', y') && Adjacent(x, y, x', y') ==>
      LvlAt(cl, x, y) <= LvlAt(cl, x', y') + 1)
  }

  /** No chunk level of `a` is lowered in `b`. */
  ghost predicate Raised(a: seq<nat>, b: seq<nat>) {
    |a| == |b| && forall c :: 0 <= c < |a| ==> a[c] <= b[c]
  }

  /** From `a` to `b` no chunk level is lowered and none is raised above `l` unless it was
      already above it. */
  ghost predicate Lifted(a: seq<nat>, b: seq<nat>, l: nat) {
    Raised(a, b) && forall c :: 0 <= c < |a| ==> b[c] <= Max(a[c], l)
  }

  lemma LiftedTrans(a: seq<nat>, b: seq<nat>, c: seq<nat>, l: nat)
    requires Lifted(a, b, l) && Lifted(b, c, l)
    ensures Lifted(a, c, l)
  {
  }

  lemma LiftedAt(a: seq<nat>, b: seq<nat>, c: nat, l: nat)
    requires Lifted(a, b, l) && c < |a|
    ensures a[c] <= b[c] <= Max(a[c], l)
  {
  }

  /** Marking chunk (x, y) as having reached `l` after its block has reached `l - 1`: the
      levels are lifted from `a` with bound `l` and the whole block is where subdivideChunk
      promises it to be. */
  lemma RaiseKept(a: seq<nat>, b: seq<nat>, b': seq<nat>, x: int, y: int, l: nat)
    requires |a| == NB_CHUNKS * NB_CHUNKS && InChunks(x, y) && 0 < l
    requires Lifted(a, b, l - 1) && LvlAt(a, x, y) < l && NeighboursAt(b, x, y, l - 1)
    requires b' == b[x * NB_CHUNKS + y := l]
    ensures Lifted(a, b', l) && LvlAt(b', x, y) >= l && NeighboursAt(b', x, y, l - 1)
  {
    forall c | 0 <= c < |a| ensures a[c] <= b'[c] <= Max(a[c], l) {
      assert a[c] <= b[c] <= Max(a[c], l - 1);
    }
    forall x', y' | InChunks(x', y') && Adjacent(x, y, x', y') ensures LvlAt(b', x', y') >= l - 1 {
      assert LvlAt(b, x', y') >= l - 1;
    }
  }

  /** Every in-range Moore neighbour of (x, y) has reached level `l`. */
  ghost predicate NeighboursAt(cl: seq<nat>, x: int, y: int, l: int)
    requires |cl| == NB_CHUNKS * NB_CHUNKS
  {
    forall x', y' :: InChunks(x', y') && Adjacent(x, y, x', y') ==> LvlAt(cl, x', y') >= l
  }

  function Max(a: nat, b: nat): nat {
    if a < b then b else a
  }

  function Min(a: nat, b: nat): nat {
    if a < b then a else b
  }

  /** The triangle indices 0, 1, ..., n - 1, in arena order. */
  function Indices(n: nat): (r: seq<nat>)
    ensures |r| == n && forall i :: 0 <= i < n ==> r[i] == i
  {
    if n == 0 then [] else Indices(n - 1) + [n - 1]
  }

  /** Raising a chunk to level `l` keeps the levels graded when its neighbours have reached
      `l - 1` and the chunk itself is not above `l`. */
  lemma GradedRaise(cl: seq<nat>, x: int, y: int, l: nat)
    requires Graded(cl) && InChunks(x, y) && l <= MAX_SUBDIV_LVL && LvlAt(cl, x, y) <= l
    requires NeighboursAt(cl, x, y, l - 1)
    ensures Graded(cl[x * NB_CHUNKS + y := l])
  {
    var cl' := cl[x * NB_CHUNKS + y := l];
    forall a, b, a', b' | InChunks(a, b) && InChunks(a', b') && Adjacent(a, b, a', b')
      ensures LvlAt(cl', a, b) <= LvlAt(cl', a', b') + 1
    {
      if a == x && b == y {
        assert LvlAt(cl, a', b') + 1 >= l;
      }
      assert LvlAt(cl, a, b) <= LvlAt(cl, a', b') + 1;
    }
  }

  /** Lifting every chunk to at least the global level `g` keeps the levels graded. */
  lemma GradedLift(cl: seq<nat>, cl': seq<nat>, g: nat)
    requires Graded(cl) && g <= MAX_SUBDIV_LVL && |cl'| == |cl|
    requires forall c :: 0 <= c < |cl| ==> cl'[c] == Max(cl[c], g)
    ensures Graded(cl')
  {
    forall a, b, a', b' | InChunks(a, b) && InChunks(a', b') && Adjacent(a, b, a', b')
      ensures LvlAt(cl', a, b) <= LvlAt(cl', a', b') + 1
    {
      assert LvlAt(cl, a, b) <= LvlAt(cl, a', b') + 1;
    }
  }

  /** Level `after` is level `next` with every triangle of `cur`, in arena order, subdivided
      into it. The list of triangles is bound by a quantifier, so that the definition of
      Subdivided is only unfolded where a caller asks for it. */
  ghost predicate WholeLevelSubdivided(after: Mesh, next: Mesh, cur: Mesh, angle: (real, real) -> real) {
    WellFormed(next) && WellFormed(cur) &&
    forall ts: seq<nat> | ts == Indices(|cur.tris|) :: after == Subdivided(next, cur, ts, angle)
  }

  lemma WholeLevelSubdividedIs(after: Mesh, next: Mesh, cur: Mesh, angle: (real, real) -> real)
    requires WellFormed(next) && WellFormed(cur)
    ensures WholeLevelSubdivided(after, next, cur, angle) <==>
      after == Subdivided(next, cur, Indices(|cur.tris|), angle)
  {
    if after == Subdivided(next, cur, Indices(|cur.tris|), angle) {
      forall ts: seq<nat> | ts == Indices(|cur.tris|) ensures after == Subdivided(next, cur, ts, angle) {
      }
    }
  }

  /** What subdivideChunk leaves when it refines chunk (x, y): `after` is level `before` with
      the chunk's triangles of `src` subdivided into it, `src` being the level below as the
      neighbourhood's subdivision left it, grown from `srcBefore`, and `srcAfter` is `src`
      with its fans re-sorted. The facts are bound by a quantifier over the chunk's triangle
      list, so that only a caller that asks for that Subdivided term unfolds them. */
  ghost predicate ChunkStep(after: Mesh, before: Mesh, srcAfter: Mesh, src: Mesh, srcBefore: Mesh,
                            x: nat, y: nat, angle: (real, real) -> real)
    requires x < NB_CHUNKS && y < NB_CHUNKS
  {
    forall ts: seq<nat> {:trigger Subdivided(before, src, ts, angle)}
      | WellFormed(before) && WellFormed(src) && ts == ChunkTriangles(src, x, y) &&
        (forall i :: 0 <= i < |ts| ==> ts[i] < |src.tris|) ::
      after == Subdivided(before, src, ts, angle) && Extends(srcBefore, src) &&
      Resorted(src, srcAfter, angle)
  }

  /** ChunkStep is the chunk's refinement, the growth of the level below and its re-sorting. */
  lemma ChunkStepIs(after: Mesh, before: Mesh, srcAfter: Mesh, src: Mesh, srcBefore: Mesh,
                    x: nat, y: nat, angle: (real, real) -> real)
    requires WellFormed(before) && WellFormed(src) && x < NB_CHUNKS && y < NB_CHUNKS
    ensures ChunkStep(after, before, srcAfter, src, srcBefore, x, y, angle) <==>
      ChunkRefined(after, before, src, x, y, angle) && Extends(srcBefore, src) &&
      Resorted(src, srcAfter, angle)
  {
    var ts := ChunkTriangles(src, x, y);
    forall i | 0 <= i < |ts| ensures ts[i] < |src.tris| {
      ChunkTrianglesSound(src, x, y, ts[i]);
    }
    ChunkRefinedIs(after, before, src, x, y, ts, angle);
    if ChunkStep(after, before, srcAfter, src, srcBefore, x, y, angle) {
      var refined := Subdivided(before, src, ts, angle);
      assert after == refined;
    }
    if after == Subdivided(before, src, ts, angle) && Extends(srcBefore, src) &&
       Resorted(src, srcAfter, angle) {
      forall ts': seq<nat> {:trigger Subdivided(before, src, ts', angle)}
        | WellFormed(before) && WellFormed(src) && ts' == ChunkTriangles(src, x, y) &&
          (forall i :: 0 <= i < |ts'| ==> ts'[i] < |src.tris|)
        ensures after == Subdivided(before, src, ts', angle) && Extends(srcBefore, src) &&
          Resorted(src, srcAfter, angle) {
      }
    }
  }

  /** Chunk (x, y), when on the map, has reached level `l`. */
  ghost predicate Reached(cl: seq<nat>, x: int, y: int, l: int)
    requires |cl| == NB_CHUNKS * NB_CHUNKS
  {
    InChunks(x, y) ==> LvlAt(cl, x, y) >= l
  }

  /** Raising levels keeps the first `n` chunks of `done` at the level they had reached;
      with chunk `n` now reached too, the first `n + 1` have. */
  lemma KeptAll(a: seq<nat>, b: seq<nat>, done: seq<(int, int)>, n: nat, l: int)
    requires |a| == NB_CHUNKS * NB_CHUNKS && Raised(a, b) && n < |done|
    requires forall i :: 0 <= i < n ==> Reached(a, done[i].0, done[i].1, l)
    requires Reached(b, done[n].0, done[n].1, l)
    ensures forall i :: 0 <= i <= n ==> Reached(b, done[i].0, done[i].1, l)
  {
    forall i | 0 <= i < n ensures Reached(b, done[i].0, done[i].1, l) {
      var (x, y) := done[i];
      if InChunks(x, y) {
        assert a[x * NB_CHUNKS + y] <= b[x * NB_CHUNKS + y];
      }
    }
  }

  /** When the nine chunks around (x, y) have each reached `l`, so have all its neighbours. */
  lemma NeighboursReached(cl: seq<nat>, x: int, y: int, done: seq<(int, int)>, l: int)
    requires |cl| == NB_CHUNKS * NB_CHUNKS
    requires done == [(x - 1, y - 1), (x - 1, y), (x - 1, y + 1), (x, y - 1), (x, y), (x, y + 1),
                      (x + 1, y - 1), (x + 1, y), (x + 1, y + 1)]
    requires forall i :: 0 <= i < |done| ==> Reached(cl, done[i].0, done[i].1, l)
    ensures NeighboursAt(cl, x, y, l)
  {
    forall x', y' | InChunks(x', y') && Adjacent(x, y, x', y') ensures LvlAt(cl, x', y') >= l {
      var i := (x' - x + 1) * 3 + (y' - y + 1);
      assert done[i] == (x', y');
    }
  }

  /** The loop of generateNewSubdivisionLevel that lists the triangles of a level: every
      index of its arena, in order. */
  method AllTriangles(n: nat) returns (ts: seq<nat>)
    ensures ts == Indices(n)
  {
    ts := [];
    for i := 0 to n
      invariant |ts| == i && forall k :: 0 <= k < i ==> ts[k] == k
    {
      ts := ts + [i];
    }
  }

  /** The subdivision step of generateNewSubdivisionLevel: every triangle of level `cur`, in
      arena order, is subdivided into level `next`. */
  method SubdivideNextLevel(cur: SubdivisionLevel, next: SubdivisionLevel, angle: (real, real) -> real)
    requires cur != next && WellFormed(cur.State()) && WellFormed(next.State())
    modifies cur, next
    ensures WholeLevelSubdivided(next.State(), old(next.State()), old(cur.State()), angle)
    ensures Resorted(old(cur.State()), cur.State(), angle)
    ensures WellFormed(cur.State()) && WellFormed(next.State())
  {
    var currentTriangles := AllTriangles(|cur.tris|);
    ghost var c0, n0 := cur.State(), next.State();
    next.SubdivideTriangles(cur, currentTriangles, angle);
    WholeLevelSubdividedIs(next.State(), n0, c0, angle);
  }

  class TerrainGeometry {
    /** The subdivision levels, 0 to MAX_SUBDIV_LVL; the unique pointers become distinct
        objects. */
    const levels: seq<SubdivisionLevel>
    /** _chunkSubdivLvl: the level reached by chunk (x, y), at index x * NB_CHUNKS + y. */
    var chunkLvl: seq<nat>
    /** _currentGlobalSubdivLvl: the level reached by the whole map. */
    var currentGlobal: nat
    /** The angle of a 2D vector (vu::angle), which the smoothing step uses. */
    const angle: (real, real) -> real

    ghost predicate Valid()
      reads this, levels
    {
      |levels| == MAX_SUBDIV_LVL + 1 &&
      (forall i, j :: 0 <= i < j < |levels| ==> levels[i] != levels[j]) &&
      LevelsOk() && Graded(chunkLvl) && currentGlobal <= MAX_SUBDIV_LVL &&
      (forall c :: 0 <= c < |chunkLvl| ==> currentGlobal <= chunkLvl[c])
    }

    /** Every level is a well-formed mesh. */
    ghost predicate LevelsOk()
      reads levels
    {
      forall k :: 0 <= k < |levels| ==> WellFormed(levels[k].State())
    }

    /** Every chunk and the map at level 0, and MAX_SUBDIV_LVL + 1 empty levels. */
    constructor(angle: (real, real) -> real)
      ensures Valid() && this.angle == angle
      ensures chunkLvl == seq(NB_CHUNKS * NB_CHUNKS, _ => 0) && currentGlobal == 0
      ensures forall k :: 0 <= k < |levels| ==> fresh(levels[k]) && levels[k].State() == EmptyMesh()
    {
      var ls: seq<SubdivisionLevel> := [];
      for i := 0 to MAX_SUBDIV_LVL + 1
        invariant |ls| == i
        invariant forall k :: 0 <= k < i ==> fresh(ls[k]) && ls[k].State() == EmptyMesh()
        invariant forall a, b :: 0 <= a < b < i ==> ls[a] != ls[b]
      {
        var l := new SubdivisionLevel();
        ls := ls + [l];
      }
      EmptyMeshWellFormed();
      levels := ls;
      chunkLvl := seq(NB_CHUNKS * NB_CHUNKS, _ => 0);
      currentGlobal := 0;
      this.angle := angle;
    }

    /** generateNewSubdivisionLevel: below MAX_SUBDIV_LVL, every triangle of the current
        level is subdivided into the next one, the map reaches that level and every chunk
        below it is lifted to it; at MAX_SUBDIV_LVL nothing happens. */
    method GenerateNewSubdivisionLevel()
      requires Valid()
      modifies this`currentGlobal, this`chunkLvl, levels
      ensures Valid()
      ensures old(currentGlobal) == MAX_SUBDIV_LVL ==>
        currentGlobal == old(currentGlobal) && chunkLvl == old(chunkLvl) && unchanged(levels)
      ensures var g := old(currentGlobal);
        g < MAX_SUBDIV_LVL ==>
          currentGlobal == g + 1 &&
          (forall c :: 0 <= c < |chunkLvl| ==> chunkLvl[c] == Max(old(chunkLvl[c]), g + 1)) &&
          WholeLevelSubdivided(levels[g + 1].State(), old(levels[g + 1].State()), old(levels[g].State()), angle) &&
          Resorted(old(levels[g].State()), levels[g].State(), angle) &&
          (forall k :: 0 <= k < |levels| && k != g && k != g + 1 ==> levels[k].State() == old(levels[k].State()))
    {
      if currentGlobal < MAX_SUBDIV_LVL {
        var g := currentGlobal;
        var currentLvl, nextLvl := levels[g], levels[g + 1];
        SubdivideNextLevel(currentLvl, nextLvl, angle);
        forall k | 0 <= k < |levels| ensures WellFormed(levels[k].State()) {
          if k != g && k != g + 1 {
            assert levels[k] != currentLvl && levels[k] != nextLvl;
            assert levels[k].State() == old(levels[k].State());
          }
        }
        RaiseGlobalLevel();
      }
    }

    /** The end of generateNewSubdivisionLevel: the global level goes up by one and every
        chunk below it is lifted to it. */
    method RaiseGlobalLevel()
      requires Valid() && currentGlobal < MAX_SUBDIV_LVL
      modifies this`currentGlobal, this`chunkLvl
      ensures Valid() && currentGlobal == old(currentGlobal) + 1
      ensures forall c :: 0 <= c < |chunkLvl| ==> chunkLvl[c] == Max(old(chunkLvl[c]), currentGlobal)
      ensures forall k :: 0 <= k < |levels| ==> levels[k].State() == old(levels[k].State())
    {
      ghost var cl0 := chunkLvl;
      assert Graded(cl0) && LevelsOk();
      currentGlobal := currentGlobal + 1;
      for i := 0 to NB_CHUNKS * NB_CHUNKS
        invariant currentGlobal == old(currentGlobal) + 1 && |chunkLvl| == |cl0|
        invariant forall c :: 0 <= c < i ==> chunkLvl[c] == Max(cl0[c], currentGlobal)
        invariant forall c :: i <= c < |cl0| ==> chunkLvl[c] == cl0[c]
      {
        if chunkLvl[i] < currentGlobal {
          chunkLvl := chunkLvl[i := currentGlobal];
        }
      }
      GradedLift(cl0, chunkLvl, currentGlobal);
    }

    /** subdivideChunk(x, y, lvl): an off-map chunk, or one that has reached `lvl`, is left
        alone; otherwise the chunk and its eight neighbours are first brought to `lvl - 1`,
        then the chunk's triangles of level `lvl - 1` are subdivided into level `lvl` and the
        chunk is marked as having reached `lvl`. */
    method SubdivideChunk(x: int, y: int, lvl: nat) returns (ghost src: Mesh)
      requires Valid() && lvl <= MAX_SUBDIV_LVL
      modifies this`chunkLvl, levels
      ensures Valid()
      ensures Lifted(old(chunkLvl), chunkLvl, lvl)
      ensures InChunks(x, y) ==> LvlAt(chunkLvl, x, y) >= lvl && NeighboursAt(chunkLvl, x, y, lvl - 1)
      ensures !InChunks(x, y) || old(LvlAt(chunkLvl, x, y)) >= lvl ==>
        chunkLvl == old(chunkLvl) && unchanged(levels)
      ensures forall k :: 0 <= k < |levels| ==> Extends(old(levels[k].State()), levels[k].State())
      ensures forall k :: lvl < k < |levels| ==> levels[k].State() == old(levels[k].State())
      ensures InChunks(x, y) && old(LvlAt(chunkLvl, x, y)) < lvl ==>
        0 < lvl && ChunkStep(levels[lvl].State(), old(levels[lvl].State()), levels[lvl - 1].State(), src,
                             old(levels[lvl - 1].State()), x, y, angle)
      decreases lvl, 1
    {
      src := levels[0].State();
      if 0 <= x < NB_CHUNKS && 0 <= y < NB_CHUNKS {
        if chunkLvl[x * NB_CHUNKS + y] < lvl {
          ghost var c0 := chunkLvl;
          SubdivideNeighbourhood(x, y, lvl);
          ghost var c1 := chunkLvl;
          LiftedAt(c0, c1, x * NB_CHUNKS + y, lvl - 1);
          label Mid:
          src := levels[lvl - 1].State();
          FinishChunk(x, y, lvl);
          forall k | 0 <= k < |levels| ensures Extends(old(levels[k].State()), levels[k].State()) {
            ExtendsTrans(old(levels[k].State()), old@Mid(levels[k].State()), levels[k].State());
          }
          RaiseKept(c0, c1, chunkLvl, x, y, lvl);
          ChunkStepIs(levels[lvl].State(), old(levels[lvl].State()), levels[lvl - 1].State(), src,
                      old(levels[lvl - 1].State()), x, y, angle);
          assert Valid();
          assert Lifted(old(chunkLvl), chunkLvl, lvl);
          assert LvlAt(chunkLvl, x, y) >= lvl;
          assert NeighboursAt(chunkLvl, x, y, lvl - 1);
          assert old(LvlAt(chunkLvl, x, y)) < lvl;
        }
      }
    }

    /** The nine recursive calls of subdivideChunk, one per chunk of the 3 x 3 block around
        (x, y), in the source's order: afterwards each of them that is on the map has reached
        level `lvl - 1`. */
    method SubdivideNeighbourhood(x: int, y: int, lvl: nat)
      requires Valid() && 0 < lvl <= MAX_SUBDIV_LVL
      modifies this`chunkLvl, levels
      ensures Valid()
      ensures Lifted(old(chunkLvl), chunkLvl, lvl - 1)
      ensures NeighboursAt(chunkLvl, x, y, lvl - 1)
      ensures forall k :: 0 <= k < |levels| ==> Extends(old(levels[k].State()), levels[k].State())
      ensures forall k :: lvl <= k < |levels| ==> levels[k].State() == old(levels[k].State())
      decreases lvl, 0
    {
      var block := [(x - 1, y - 1), (x - 1, y), (x - 1, y + 1), (x, y - 1), (x, y), (x, y + 1),
                    (x + 1, y - 1), (x + 1, y), (x + 1, y + 1)];
      for i := 0 to |block|
        invariant Valid() && Lifted(old(chunkLvl), chunkLvl, lvl - 1)
        invariant forall j :: 0 <= j < i ==> Reached(chunkLvl, block[j].0, block[j].1, lvl - 1)
        invariant forall k :: 0 <= k < |levels| ==> Extends(old(levels[k].State()), levels[k].State())
        invariant forall k :: lvl <= k < |levels| ==> levels[k].State() == old(levels[k].State())
      {
        ghost var before := chunkLvl;
        label Before:
        BringChunkTo(block[i].0, block[i].1, lvl - 1);
        forall k | 0 <= k < |levels| ensures Extends(old(levels[k].State()), levels[k].State()) {
          ExtendsTrans(old(levels[k].State()), old@Before(levels[k].State()), levels[k].State());
        }
        KeptAll(before, chunkLvl, block, i, lvl - 1);
        LiftedTrans(old(chunkLvl), before, chunkLvl, lvl - 1);
      }
      NeighboursReached(chunkLvl, x, y, block, lvl - 1);
    }

    /** The end of subdivideChunk, once the neighbourhood has reached `lvl - 1`: the chunk's
        triangles are subdivided into level `lvl` and the chunk is marked as having reached it. */
    method FinishChunk(x: int, y: int, lvl: nat)
      requires Valid() && 0 < lvl <= MAX_SUBDIV_LVL && InChunks(x, y)
      requires LvlAt(chunkLvl, x, y) <= lvl && NeighboursAt(chunkLvl, x, y, lvl - 1)
      modifies this`chunkLvl, levels[lvl - 1], levels[lvl]
      ensures Valid() && chunkLvl == old(chunkLvl)[x * NB_CHUNKS + y := lvl]
      ensures ChunkRefined(levels[lvl].State(), old(levels[lvl].State()), old(levels[lvl - 1].State()), x, y, angle)
      ensures Resorted(old(levels[lvl - 1].State()), levels[lvl - 1].State(), angle)
      ensures forall k :: 0 <= k < |levels| && k != lvl - 1 && k != lvl ==> levels[k].State() == old(levels[k].State())
      ensures forall k :: 0 <= k < |levels| ==> Extends(old(levels[k].State()), levels[k].State())
    {
      SubdivideChunkTriangles(x, y, lvl);
      label Refined:
      MarkReached(x, y, lvl);
      assert forall k :: 0 <= k < |levels| ==> levels[k].State() == old@Refined(levels[k].State());
    }

    /** The last statement of subdivideChunk: the chunk is marked as having reached `lvl`. */
    method MarkReached(x: int, y: int, lvl: nat)
      requires Valid() && 0 < lvl <= MAX_SUBDIV_LVL && InChunks(x, y)
      requires LvlAt(chunkLvl, x, y) <= lvl && NeighboursAt(chunkLvl, x, y, lvl - 1)
      modifies this`chunkLvl
      ensures Valid() && chunkLvl == old(chunkLvl)[x * NB_CHUNKS + y := lvl]
      ensures forall k :: 0 <= k < |levels| ==> levels[k].State() == old(levels[k].State())
    {
      GradedRaise(chunkLvl, x, y, lvl);
      chunkLvl := chunkLvl[x * NB_CHUNKS + y := lvl];
    }

    /** The chunk's triangles of level `lvl - 1`, as getTrianglesInChunk lists them, are
        subdivided into level `lvl`. */
    method SubdivideChunkTriangles(x: int, y: int, lvl: nat)
      requires Valid() && 0 < lvl <= MAX_SUBDIV_LVL && InChunks(x, y)
      modifies levels[lvl - 1], levels[lvl]
      ensures Valid()
      ensures ChunkRefined(levels[lvl].State(), old(levels[lvl].State()), old(levels[lvl - 1].State()), x, y, angle)
      ensures Resorted(old(levels[lvl - 1].State()), levels[lvl - 1].State(), angle)
      ensures forall k :: 0 <= k < |levels| && k != lvl - 1 && k != lvl ==> levels[k].State() == old(levels[k].State())
      ensures forall k :: 0 <= k < |levels| ==> Extends(old(levels[k].State()), levels[k].State())
    {
      var src, dst := levels[lvl - 1], levels[lvl];
      dst.SubdivideChunkFrom(src, x, y, angle);
      forall k | 0 <= k < |levels|
        ensures WellFormed(levels[k].State()) && Extends(old(levels[k].State()), levels[k].State())
      {
        if k != lvl - 1 && k != lvl {
          assert levels[k] != src && levels[k] != dst;
          assert levels[k].State() == old(levels[k].State());
        }
      }
    }

    /** A call to subdivideChunk(x, y, l) as its callers see it: chunk (x, y), when on the
        map, reaches level `l`, no chunk is raised above `l` unless it already was, and only
        the levels up to `l` grow. */
    method BringChunkTo(x: int, y: int, l: nat)
      requires Valid() && l <= MAX_SUBDIV_LVL
      modifies this`chunkLvl, levels
      ensures Valid() && Lifted(old(chunkLvl), chunkLvl, l) && Reached(chunkLvl, x, y, l)
      ensures forall k :: 0 <= k < |levels| ==> Extends(old(levels[k].State()), levels[k].State())
      ensures forall k :: l < k < |levels| ==> levels[k].State() == old(levels[k].State())
      decreases l, 2
    {
      ghost var src := SubdivideChunk(x, y, l);
    }

    /** getTrianglesInChunk(x, y, lvl): the level is clamped to MAX_SUBDIV_LVL, the chunk is
        brought to it and its triangles of that level are returned. */
    method GetTrianglesInChunk(x: nat, y: nat, lvl: nat) returns (res: seq<nat>)
      requires Valid() && x < NB_CHUNKS && y < NB_CHUNKS
      modifies this`chunkLvl, levels
      ensures Valid() && Raised(old(chunkLvl), chunkLvl)
      ensures LvlAt(chunkLvl, x, y) >= Min(lvl, MAX_SUBDIV_LVL)
      ensures res == ChunkTriangles(levels[Min(lvl, MAX_SUBDIV_LVL)].State(), x, y)
      ensures forall k :: 0 <= k < |levels| ==> Extends(old(levels[k].State()), levels[k].State())
      ensures forall k :: Min(lvl, MAX_SUBDIV_LVL) < k < |levels| ==> levels[k].State() == old(levels[k].State())
    {
      var l := lvl;
      if l > MAX_SUBDIV_LVL {
        l := MAX_SUBDIV_LVL;
      }
      assert l == Min(lvl, MAX_SUBDIV_LVL);
      BringChunkTo(x, y, l);
      assert BucketsShaped(levels[l].buckets) by {
        assert WellFormed(levels[l].State());
      }
      res := levels[l].GetTrianglesInChunk(x, y);
    }

    /** getTrianglesNearPos(pos, lvl): the bucket of `pos` at the requested level, or at the
        level its chunk has reached when that is lower. Nothing is refined. */
    method GetTrianglesNearPos(x: real, y: real, lvl: nat) returns (ts: seq<nat>)
      requires Valid() && OnMap(x, y)
      ensures ts == NearTriangles(levels[Min(lvl, chunkLvl[NearChunk(x, y)])].State(), x, y)
    {
      var info := GetSubChunkInfo(x, y);
      ChunkLimit(x);
      ChunkLimit(y);
      var l := lvl;
      var current := chunkLvl[info.cx * NB_CHUNKS + info.cy];
      if l > current {
        l := current;
      }
      ts := NearTriangles(levels[l].State(), x, y);
    }

    /** getBiome(pos, lvl): the biome at `pos` at the requested level, or at the level its
        chunk has reached when that is lower. Nothing is refined. */
    method GetBiome(x: real, y: real, lvl: nat) returns (b: Biome)
      requires Valid() && OnMap(x, y)
      ensures b == BiomeAt(levels[Min(lvl, chunkLvl[NearChunk(x, y)])].State(), x, y)
    {
      var info := GetSubChunkInfo(x, y);
      ChunkLimit(x);
      ChunkLimit(y);
      var l := lvl;
      var current := chunkLvl[info.cx * NB_CHUNKS + info.cy];
      if l > current {
        l := current;
      }
      b := levels[l].GetBiome(x, y);
    }
  }
}
