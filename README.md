# gourdin terrain, animation, element and input core in Dafny

This project models four parts of the gourdin game engine and proves properties of the models.

- **Adaptive terrain mesh** (`src/terrain/terrainGeometry.cpp`):
  - A `TerrainGeometry` holds `MAX_SUBDIV_LVL + 1` subdivision levels, the level each chunk has reached, and the level the whole map has reached.
  - Each `SubdivisionLevel` stores vertices deduplicated by exact position. Each vertex keeps its fan of adjacent triangles.
  - It stores triangles deduplicated by their ordered vertex triple, with a grid of `(chunk, subchunk)` buckets that index the triangles by bounding box.
  - Levels are refined by a Loop-style 1-to-4 split. Border vertices and interior vertices get different smoothing masks, and edge midpoints depend on the neighbour across the edge.
  - A chunk is refined on demand, and only after its eight neighbours have reached the level below.
- **Sprite animation clock** (`src/texture_handling/animationManager.cpp`): the frame counter, the accumulated time and the optional pause on the last frame of a looping animation.
- **In-game element** (`src/igelement/igElement.cpp`): the orientation reduced modulo 360 degrees, the compensation for camera turns, and the vertex, texture and index arrays.
- **Input handler** (`src/event_handlers/event_handler.cpp`):
  - the finger counter;
  - the tap and double-tap recogniser, with its pending click and sentinel point;
  - the left-button drag origin;
  - the quit and Escape exits;
  - the `m` key that switches handlers;
  - the distance between two angles.

## How the model is built

**Terrain levels:**
- Pointers become indices into two arenas per level: `verts` for vertices and `tris` for triangles.
- `vertexAt` is the position-to-vertex map. `triangleAt` is the triangle set, keyed by the ordered vertex triple, as `equalTri` compares triangles.
- `buckets` is `_trianglesInSubChunk`.
- Positions are exact reals. Every weight in the code is rational, so the formulas hold exactly.

**Modules:**
- Imperative code:
  - `Levels.SubdivisionLevel` and `Terrain.TerrainGeometry` are classes whose methods change their fields, with loops for the source's loops.
  - Each method is proved against a value-level function: `MeshInsert.AddTri`, `Subdivision.Subdivided`, `MeshQuery.ChunkTriangles`, `MeshQuery.BiomeAt`, and so on.
  - What the source promises is proved about those functions as lemmas.
- Pure code:
  - `MeshModel` holds `sortIndices`, the fan walks and `getSubChunkInfo`.
  - `MeshQuery` holds the bucket queries.
  - `Sorting` holds the stable list sort and `unique`.
  - `Seqs` holds list concatenation.
- The other three source files:
  - `Animation.AnimationManager` and `IgElement.IgElement` are classes.
  - `Events.EventHandler` is a class whose methods are proved equal to the state functions `Events.Handle` and `Events.OnGoing`. The tap scenarios are proved as lemmas about those functions.

**Things passed in as parameters:**
- The unseen 2-D angle helper (`vu::angle`) used by the clockwise fan order.
- `RANDOMF`, the sentinel point `DEFAULT_OUTSIDE_WINDOW_COORD`, the click radius `MAX_DIST_FOR_CLICK` and the current time.

**Placeholder constants.** The constants of the unseen headers are module constants with placeholder values:
- `NB_CHUNKS = 16`;
- `CHUNK_SIZE = 256`, which the code needs to be divisible by `GRID_SUBDIV = 8`;
- `MAX_COORD = NB_CHUNKS * CHUNK_SIZE`;
- `MAX_SUBDIV_LVL = 3`;
- `NO_DEFINED_BIOME = 0`;
- `WAIT = 0`.

## Model

| member | source | states |
|---|---|---|
| MeshModel.SortIndices | src/terrain/terrainGeometry.cpp:44-69 | a rotation exists exactly when the point is a corner; it starts at the first corner at that point and continues cyclically; None stands for the unmatched case |
| MeshModel.ClockwiseLessIsStrict | src/terrain/terrainGeometry.cpp:12-42 | the clockwise comparator is a strict order, which is what std::sort asks of it; any comparison of real keys is, so the content of the comparator is in ClockwiseKeyInTurn |
| MeshModel.ClockwiseKeyInTurn | src/terrain/terrainGeometry.cpp:19-37 | for an edge angle in (-360, 360), the sort key is the unique angle in [0, 360) equal to it modulo a whole turn: the fan is ordered by the turn from (0, 1) measured one way round |
| MeshModel.SortTriangles | src/terrain/terrainGeometry.cpp:71-76 | the flag ends set, the fan is a permutation of the old one, and an already sorted vertex is left as it is |
| MeshModel.SortTrianglesOrders | src/terrain/terrainGeometry.cpp:71-76 | the sorted fan is in clockwise order |
| MeshModel.IndexOf | src/terrain/terrainGeometry.cpp:79 | std::find: the first position holding the triangle |
| MeshModel.NextTri | src/terrain/terrainGeometry.cpp:78-107 | no result for a triangle outside the fan; otherwise a result exactly when the triangle's third vertex is its cyclic successor's second vertex, and the result is that successor |
| MeshModel.FirstGap | src/terrain/terrainGeometry.cpp:111-122 | the first fan position at or after i whose pair does not join, with every pair before it joined; None when all pairs from i join |
| MeshModel.BorderCases | src/terrain/terrainGeometry.cpp:109-136 | getBorder gives the zero pair when every cyclic pair joins, and otherwise the two positions across the first pair that does not join |
| MeshModel.Border | src/terrain/terrainGeometry.cpp:109-136 | the positions on both sides of the first gap of the fan, or the zero pair when the fan is closed (definition; BorderCases states it case by case) |
| MeshModel.NextTriNoneMeansGap | src/terrain/terrainGeometry.cpp:78-136 | when getNextTri finds no neighbour for a triangle of the fan, getBorder reports a gap at or before it |
| MeshModel.ClosedFanWalks | src/terrain/terrainGeometry.cpp:78-136 | in a closed fan every triangle has its cyclic successor as neighbour |
| MeshModel.AddAdjacentTriangle | src/terrain/terrainGeometry.cpp:138-141 | the triangle is appended to the fan and the sorted flag is cleared |
| MeshModel.ChunkOf | src/terrain/terrainGeometry.cpp:336-337 | the chunk whose span contains the coordinate |
| MeshModel.GetSubChunkInfo | src/terrain/terrainGeometry.cpp:333-342 | the subchunk indices lie below GRID_SUBDIV |
| MeshModel.SubChunkInfoLocates | src/terrain/terrainGeometry.cpp:333-342 | the global subchunk index of a coordinate is the number of whole subchunk widths below it |
| MeshModel.SortTrianglesSame | src/terrain/terrainGeometry.cpp:12-42 | sorting a fan depends on positions only, not on other fans |
| MeshModel.BorderSame | src/terrain/terrainGeometry.cpp:109-136 | getBorder reads positions only |
| MeshModel.NextTriSame | src/terrain/terrainGeometry.cpp:78-107 | getNextTri reads positions only |
| MeshInsert.EmptyMeshWellFormed | src/terrain/terrainGeometry.cpp:143-146 | a new level is well formed |
| MeshInsert.Oriented | src/terrain/terrainGeometry.cpp:156-160 | the winding fix keeps the first corner and the three positions, swaps at most corners 1 and 2, and leaves a face normal with non-negative z |
| MeshInsert.WithVertex | src/terrain/terrainGeometry.cpp:164-171 | a vertex is created for a new position only; an existing position keeps its vertex and the level is unchanged |
| MeshInsert.WithCorners | src/terrain/terrainGeometry.cpp:163-172 | after the vertex loop the three corners have vertices, old vertices and map entries are kept, and each new vertex has an empty fan at one of the corners |
| MeshInsert.AdjoinAll | src/terrain/terrainGeometry.cpp:179-181 | the listed vertices get the triangle appended and their flag cleared; all other vertices are unchanged |
| MeshInsert.Register | src/terrain/terrainGeometry.cpp:194-206 | the bucket grid keeps its shape |
| MeshInsert.RegisterCounts | src/terrain/terrainGeometry.cpp:194-206 | bucket by bucket, exactly one occurrence of the triangle is added where the box covers and none elsewhere |
| MeshInsert.StoredKeyMeansNoNewVertex | src/terrain/terrainGeometry.cpp:163-175 | a triangle already in the set only uses existing vertices, so the vertex loop adds none |
| MeshInsert.AddTriWellFormed | src/terrain/terrainGeometry.cpp:148-208 | addTriangle keeps a level well formed: maps and arenas agree, fans are around their vertices, triangles face +Z and the bucket index is exact |
| MeshInsert.AddTri | src/terrain/terrainGeometry.cpp:148-208 | addTriangle on a level: orient, find or create the corner vertices, and store the triangle unless its vertex triple is stored (definition; the AddTri lemmas are proved about it) |
| MeshInsert.StoreTriangle | src/terrain/terrainGeometry.cpp:177-206 | the new-triangle branch: appended to the set, to its corners' fans and to the buckets of its box (definition; AddTriNew and AddTriNewBuckets are proved about it) |
| MeshInsert.AddTriStores | src/terrain/terrainGeometry.cpp:148-177 | afterwards the triangle is in the set with the same three positions, in an order whose face normal has non-negative z |
| MeshInsert.AddTriReusesVertices | src/terrain/terrainGeometry.cpp:163-172 | the vertex of an exactly equal position is reused, vertices are added only for the corners, and no position moves |
| MeshInsert.AddTriExisting | src/terrain/terrainGeometry.cpp:174-177 | re-inserting a stored triangle changes nothing, whatever biome it carries |
| MeshInsert.AddTriIdempotent | src/terrain/terrainGeometry.cpp:148-208 | addTriangle twice is addTriangle once |
| MeshInsert.AddTriNew | src/terrain/terrainGeometry.cpp:151-181 | a new triangle is appended with its biome and oriented corners; it is added to the fans of its corner vertices and of no other vertex; new vertices are corners |
| MeshInsert.AddTriNewBuckets | src/terrain/terrainGeometry.cpp:185-206 | a new triangle is appended to exactly the buckets its MAX_COORD-clamped bounding box covers |
| MeshQuery.BoxCoversPoint | src/terrain/terrainGeometry.cpp:185-206 | every on-map point of a triangle's bounding box lies in a bucket the triangle was registered in |
| MeshQuery.GlobalSubBelowEdge | src/terrain/terrainGeometry.cpp:188-189 | a coordinate below MAX_COORD is in a subchunk no further than that of the clamped far edge |
| MeshQuery.NearTrianglesExact | src/terrain/terrainGeometry.cpp:391-395 | getTrianglesNearPos lists each triangle whose box covers the point's subchunk exactly once, and no other |
| MeshQuery.NearTrianglesComplete | src/terrain/terrainGeometry.cpp:391-395 | every stored triangle whose bounding box holds the point is listed |
| MeshQuery.NearTriangles | src/terrain/terrainGeometry.cpp:391-395 | the bucket of the subchunk holding the point (definition; NearTrianglesExact and NearTrianglesComplete) |
| MeshQuery.Barycentric | src/terrain/terrainGeometry.cpp:411-415 | the two computed coordinates rebuild the point from the corners |
| MeshQuery.Hits | src/terrain/terrainGeometry.cpp:411-417 | the barycentric test with s, t and s + t in [0, 1], a zero denominator counting as a miss (definition; Barycentric and HitInBox are proved about it) |
| MeshQuery.HitInBox | src/terrain/terrainGeometry.cpp:417 | a point that passes the test lies in the triangle's bounding box |
| MeshQuery.FirstBiomeFirstHit | src/terrain/terrainGeometry.cpp:403-419 | the biome returned is that of the first candidate that passes the test |
| MeshQuery.FirstBiomeNone | src/terrain/terrainGeometry.cpp:422 | with no candidate passing the test the result is NO_DEFINED_BIOME |
| MeshQuery.FirstBiome | src/terrain/terrainGeometry.cpp:403-422 | the biome of the first candidate that passes the test, NO_DEFINED_BIOME when none does (definition; FirstBiomeFirstHit and FirstBiomeNone) |
| MeshQuery.BiomeAt | src/terrain/terrainGeometry.cpp:397-423 | getBiome on one level: FirstBiome over the point's bucket (definition; BiomeAtSound) |
| MeshQuery.BiomeAtSound | src/terrain/terrainGeometry.cpp:397-423 | getBiome returns the biome of a stored triangle that passes the test, and NO_DEFINED_BIOME only if none does |
| MeshQuery.EmptyLevelHasNoBiome | src/terrain/terrainGeometry.cpp:422 | an empty level has no biome anywhere |
| MeshQuery.IsOcean | src/terrain/terrainGeometry.cpp:324-331 | true exactly when some bucket of the chunk is empty |
| MeshQuery.FirstEmpty | src/terrain/terrainGeometry.cpp:325-330 | the loop from bucket i finds an empty bucket exactly when one exists from i on |
| MeshQuery.OceanMeansUncovered | src/terrain/terrainGeometry.cpp:324-331 | on a well-formed level a chunk is ocean exactly when one of its subchunks is covered by no triangle's box |
| MeshQuery.ChunkTrianglesMembers | src/terrain/terrainGeometry.cpp:377-389 | getTrianglesInChunk lists exactly the triangles registered in some bucket of the chunk |
| MeshQuery.ChunkTrianglesOrdered | src/terrain/terrainGeometry.cpp:385-386 | the list is strictly increasing in compTri order, taken on the corners' arena indices as a stand-in for their addresses, and has no repeated triangle |
| MeshQuery.TriLessStrict | src/terrain/terrainGeometry.cpp:344-355 | compTri, comparing the corners' arena indices in place of their addresses, is a strict order under which triangles with different vertex triples are comparable |
| MeshQuery.ChunkTriangles | src/terrain/terrainGeometry.cpp:377-389 | the chunk's buckets appended, sorted by compTri and made unique (definition; ChunkTrianglesMembers and ChunkTrianglesOrdered) |
| MeshQuery.CornersOf | src/terrain/terrainGeometry.cpp:366-370 | the corners of the listed triangles, three per triangle, in order |
| MeshQuery.VerticesOfCorners | src/terrain/terrainGeometry.cpp:363-375 | getVertices lists every corner of every listed triangle and nothing else, with no vertex twice in a row |
| MeshQuery.VerticesOf | src/terrain/terrainGeometry.cpp:363-375 | the corners of the listed triangles with adjacent repetitions removed (definition; VerticesOfCorners) |
| MeshQuery.VerticesOfKeepsRepeats | src/terrain/terrainGeometry.cpp:372 | an example of the `unique` quirk: a vertex shared by two listed triangles whose corners are not adjacent in the list comes out twice |
| Seqs.Concat | src/terrain/terrainGeometry.cpp:380-383 | the appended buckets hold exactly the elements of the buckets |
| Seqs.ConcatAt | src/terrain/terrainGeometry.cpp:380-383 | with blocks of four, element 4j + k of the result is element k of block j |
| Sorting.SortBy | src/terrain/terrainGeometry.cpp:385 | the sort keeps the length and is a permutation |
| Sorting.SortBySorted | src/terrain/terrainGeometry.cpp:385 | the sorted list is ordered by the comparator |
| Sorting.UniqueBy | src/terrain/terrainGeometry.cpp:386 | unique keeps the first element, never makes a list longer and leaves no two adjacent equal keys |
| Sorting.UniqueByKeeps | src/terrain/terrainGeometry.cpp:386 | unique keeps only input elements |
| Sorting.UniqueByCovers | src/terrain/terrainGeometry.cpp:386 | every input key is still represented after unique |
| Sorting.UniqueOfSortedIsStrict | src/terrain/terrainGeometry.cpp:385-386 | sort then unique gives a strictly increasing list |
| Sorting.UniqueByNoAdjacent | src/terrain/terrainGeometry.cpp:372 | a list without adjacent repetitions is left unchanged |
| Sorting.UniqueKeepsDistantRepeats | src/terrain/terrainGeometry.cpp:372 | for every list, an element whose key differs from that of the element before it is appended, even when its key came earlier |
| Sorting.UniqueCollapsesRuns | src/terrain/terrainGeometry.cpp:372 | for every list, an element with the same key as the element before it is dropped, so a run collapses to its first element |
| Sorting.UniqueExamples | src/terrain/terrainGeometry.cpp:372 | examples of the two rules: [1, 2, 1] is kept whole and [1, 1, 2] becomes [1, 2] |
| Subdivision.Beta | src/terrain/terrainGeometry.cpp:230-236 | beta is positive and the n neighbour weights sum to at most 1 |
| Subdivision.SmoothUnfold | src/terrain/terrainGeometry.cpp:223-249 | the new corner is the border mask when getBorder's first position is not the origin, and the interior mask otherwise |
| Subdivision.WeightedRingIsRing | src/terrain/terrainGeometry.cpp:239-248 | the interior mask is (1 - n beta) times the vertex plus beta times each fan neighbour, in fan order |
| Subdivision.ScaledRingInWorld | src/terrain/terrainGeometry.cpp:239-246 | starting from w times a vertex in the world square, with w + n beta == 1, the weighted ring of fan neighbours stays in the square |
| Subdivision.WeightIsProduct | src/terrain/terrainGeometry.cpp:242-246 | n neighbour weights of beta, added one per fan triangle, sum to n beta |
| Subdivision.MidPointAtSeam | src/terrain/terrainGeometry.cpp:268-276 | with no neighbour across the edge, or one of another biome, the midpoint is the exact average of the edge's ends |
| Subdivision.Children | src/terrain/terrainGeometry.cpp:279-286 | four children per triangle, all with the parent's biome |
| Subdivision.QuadAt | src/terrain/terrainGeometry.cpp:279-284 | child i joins smoothed corner i to midpoints i + 1 and i |
| Subdivision.QuadLast | src/terrain/terrainGeometry.cpp:286 | the last child is the triangle of the three midpoints |
| Subdivision.AllChildrenAt | src/terrain/terrainGeometry.cpp:215-287 | child 4j + k of the run is child k of the j-th listed triangle |
| Subdivision.AllChildrenBiome | src/terrain/terrainGeometry.cpp:283-286 | every child carries the biome of its parent |
| Subdivision.AllChildrenSnoc | src/terrain/terrainGeometry.cpp:215-287 | the children of one more triangle come after those of the others |
| Subdivision.AddAllConcat | src/terrain/terrainGeometry.cpp:283-286 | adding two runs of children is adding the first and then the second |
| Subdivision.ChildrenInWorld | src/terrain/terrainGeometry.cpp:226-276 | every new corner is a non-negative weighted average of old positions, so it stays in the world square |
| Subdivision.BorderInWorld | src/terrain/terrainGeometry.cpp:109-136 | on a level inside the world square the two border positions lie inside it too |
| Subdivision.Subdivided | src/terrain/terrainGeometry.cpp:210-288 | subdividing into a well-formed level gives a well-formed level |
| Subdivision.SortedVertexFan | src/terrain/terrainGeometry.cpp:220 | sorting a vertex keeps its position and a non-empty fan around it |
| Subdivision.AddAllExtends | src/terrain/terrainGeometry.cpp:283-286 | adding children to a well-formed level keeps every vertex position and every triangle it had |
| Subdivision.SubdividedExtends | src/terrain/terrainGeometry.cpp:210-288 | subdividing into a level only grows it: no position moves and no triangle is lost |
| Subdivision.ResortedExtends | src/terrain/terrainGeometry.cpp:218-220 | re-sorting fans keeps every position and every triangle of the source level |
| Subdivision.Smooth | src/terrain/terrainGeometry.cpp:221-249 | the new position of an old vertex: 3/4 of itself and 1/8 of each border neighbour when getBorder's first position is not the origin, the interior mask otherwise (definition; SmoothUnfold and ChildrenInWorld are proved about it) |
| Subdivision.InteriorMask | src/terrain/terrainGeometry.cpp:230-248 | (1 - n beta) of the vertex plus beta of each ring neighbour (definition; WeightedRingIsRing is proved about it) |
| Subdivision.MidPoint | src/terrain/terrainGeometry.cpp:255-277 | the 3/8-3/8-1/8-1/8 mask when getNextTri finds a neighbour of the same biome, the plain average of the edge's ends otherwise (definition; MidPointAtSeam is proved about it) |
| Subdivision.Smoothed | src/terrain/terrainGeometry.cpp:219-251 | the smoothed position of vertex v once its fan is sorted (definition) |
| Subdivision.Mid | src/terrain/terrainGeometry.cpp:256-277 | midpoint i of triangle t computed from its sorted vertex i (definition) |
| Subdivision.Quad | src/terrain/terrainGeometry.cpp:279-286 | four children, all with the given biome (QuadAt and QuadLast state their corners) |
| Subdivision.AllChildren | src/terrain/terrainGeometry.cpp:215-287 | four children per listed triangle (AllChildrenAt and AllChildrenBiome state which) |
| Subdivision.AddAll | src/terrain/terrainGeometry.cpp:283-286 | addTriangle for each child in turn keeps a level well formed |
| Levels.GetBorder | src/terrain/terrainGeometry.cpp:109-136 | the loop computes the border of the fan |
| Levels.SmoothVertex | src/terrain/terrainGeometry.cpp:221-249 | the loop computes the smoothed position |
| Levels.WeightRing | src/terrain/terrainGeometry.cpp:230-248 | the loop computes the interior mask |
| Levels.GetVertices | src/terrain/terrainGeometry.cpp:363-375 | the loop followed by unique computes VerticesOf |
| Levels.LoopsCover | src/terrain/terrainGeometry.cpp:194-199 | the four nested loops visit exactly the buckets between the box corners on both axes |
| Levels.MemoWellFormed | src/terrain/terrainGeometry.cpp:213-252 | sorting fans during a run keeps the source level well formed |
| Levels.MemoLookup | src/terrain/terrainGeometry.cpp:219 | a memoised corner is sorted, and its memo entry is its smoothed position, so each corner is smoothed once per call |
| Levels.SmoothCorner | src/terrain/terrainGeometry.cpp:218-252 | a corner is smoothed and memoised only if its position is not in the memo yet |
| Levels.SmoothCorners | src/terrain/terrainGeometry.cpp:218-252 | after the corner loop all three corners of the triangle are memoised, the memo stays faithful, and only fans of the source level change |
| Levels.MidPoints | src/terrain/terrainGeometry.cpp:255-277 | the three midpoints of the model are computed |
| Levels.EdgeMidPoint | src/terrain/terrainGeometry.cpp:258-276 | one iteration of the midpoint loop computes Mid |
| Levels.HitsOf | src/terrain/terrainGeometry.cpp:404-417 | the code's barycentric computation is the test Hits |
| Levels.SubdivisionLevel.constructor | src/terrain/terrainGeometry.cpp:143-146 | an empty level with NB_CHUNKS^2 rows of GRID_SUBDIV^2 empty buckets |
| Levels.SubdivisionLevel.AddTriangle | src/terrain/terrainGeometry.cpp:148-208 | the level becomes AddTri of the old level |
| Levels.SubdivisionLevel.StoreNew | src/terrain/terrainGeometry.cpp:175-206 | the new-triangle branch computes StoreTriangle |
| Levels.SubdivisionLevel.InsertCorners | src/terrain/terrainGeometry.cpp:163-172 | the vertex loop computes WithCorners |
| Levels.SubdivisionLevel.AdjoinCorners | src/terrain/terrainGeometry.cpp:179-181 | the fan loop computes AdjoinAll, and nothing else changes |
| Levels.SubdivisionLevel.RegisterBox | src/terrain/terrainGeometry.cpp:194-206 | the four loops compute Register, and nothing else changes |
| Levels.SubdivisionLevel.RegisterColumn | src/terrain/terrainGeometry.cpp:195-205 | the loop over j for chunk column i pushes the triangle to exactly the covered buckets of that column, and changes nothing else |
| Levels.SubdivisionLevel.RegisterChunk | src/terrain/terrainGeometry.cpp:196-204 | the loop over k for chunk (i, j) pushes the triangle to exactly the covered buckets of that chunk, and changes nothing else |
| Levels.SubdivisionLevel.RegisterStrip | src/terrain/terrainGeometry.cpp:198-203 | the loop over l pushes the triangle to exactly the covered buckets of one strip, and changes nothing else |
| Levels.SubdivisionLevel.SubdivideOne | src/terrain/terrainGeometry.cpp:215-287 | one pass adds the four children of the triangle, and the source level only has fans sorted |
| Levels.SubdivisionLevel.SubdivideNth | src/terrain/terrainGeometry.cpp:215-287 | the children of the j-th listed triangle are added after those of the triangles before it, and the memo stays faithful |
| Levels.SubdivisionLevel.AddCorner | src/terrain/terrainGeometry.cpp:279-284 | the child of smoothed corner i is added after the children of the corners before it |
| Levels.SubdivisionLevel.AddQuad | src/terrain/terrainGeometry.cpp:279-286 | the four addTriangle calls for one triangle computes AddAll of its four children |
| Levels.SubdivisionLevel.AddChild | src/terrain/terrainGeometry.cpp:283 | one addTriangle extends AddAll of the children before it by one child |
| Levels.SubdivisionLevel.SubdivideTriangles | src/terrain/terrainGeometry.cpp:210-288 | the target becomes Subdivided; in the source level each vertex is kept or replaced by its sorted version, and nothing else changes; both levels stay well formed and only grow |
| Levels.SubdivisionLevel.SubdivideChunkFrom | src/terrain/terrainGeometry.cpp:470-471 | the level becomes its old self with the chunk's triangles of the level below, as getTrianglesInChunk lists them, subdivided into it; the level below only has fans re-sorted; both stay well formed and only grow |
| Levels.ChunkRefinedIs | src/terrain/terrainGeometry.cpp:470-471 | the predicate used for a chunk's refinement holds exactly when the level is Subdivided of the chunk's triangle list of the level below |
| Levels.SubdivisionLevel.IsOcean | src/terrain/terrainGeometry.cpp:324-331 | true exactly when some bucket of the chunk is empty |
| Levels.SubdivisionLevel.GetTrianglesInChunk | src/terrain/terrainGeometry.cpp:377-389 | the loop, sort and unique compute ChunkTriangles |
| Levels.SubdivisionLevel.GetBiome | src/terrain/terrainGeometry.cpp:397-423 | the loop computes BiomeAt |
| Terrain.GradedRaise | src/terrain/terrainGeometry.cpp:459-476 | raising a chunk whose neighbours have reached the level below keeps neighbouring chunks within one level of each other |
| Terrain.GradedLift | src/terrain/terrainGeometry.cpp:450-453 | lifting every chunk to the global level keeps neighbours within one level |
| Terrain.NeighboursReached | src/terrain/terrainGeometry.cpp:460-468 | after the nine calls, every on-map Moore neighbour has reached the level below |
| Terrain.AllTriangles | src/terrain/terrainGeometry.cpp:439-442 | the triangles of a level listed in arena order |
| Terrain.WholeLevelSubdividedIs | src/terrain/terrainGeometry.cpp:439-445 | the predicate used for generateNewSubdivisionLevel holds exactly when the next level is Subdivided of every triangle of the current one, in arena order |
| Terrain.ChunkStepIs | src/terrain/terrainGeometry.cpp:457-476 | the predicate used for subdivideChunk holds exactly when the target level is refined by the chunk, the level below grew to the refined source and was then only re-sorted |
| Terrain.SubdivideNextLevel | src/terrain/terrainGeometry.cpp:439-445 | the next level gets every triangle of the current one subdivided and the current level only has fans re-sorted; both stay well formed |
| Terrain.TerrainGeometry.RaiseGlobalLevel | src/terrain/terrainGeometry.cpp:448-453 | the global level goes up by one, each chunk's level becomes the larger of its old one and the new global level, the levels stay graded and no mesh changes |
| Terrain.TerrainGeometry.constructor | src/terrain/terrainGeometry.cpp:425-432 | every chunk and the map at level 0, and MAX_SUBDIV_LVL + 1 fresh, empty levels |
| Terrain.TerrainGeometry.GenerateNewSubdivisionLevel | src/terrain/terrainGeometry.cpp:434-455 | nothing changes at MAX_SUBDIV_LVL; otherwise the next level gets every triangle of the current one subdivided, the current level keeps its positions and triangles and only has fans re-sorted, every other level is unchanged, the global level goes up by one and every chunk is raised to at least it |
| Terrain.TerrainGeometry.SubdivideChunk | src/terrain/terrainGeometry.cpp:457-479 | off-map or already-reached chunks change nothing; otherwise no chunk level is lowered or raised above the target, the chunk reaches the target, every on-map neighbour reaches the level below, the target level becomes its old self with the chunk's triangles of the level below subdivided into it, the level below first grows and then only has fans re-sorted; levels above the target are unchanged and every level only grows |
| Terrain.TerrainGeometry.SubdivideNeighbourhood | src/terrain/terrainGeometry.cpp:460-468 | the nine calls bring every on-map chunk of the 3 x 3 block to the level below, lowering none; the levels from `lvl` up are unchanged and every level only grows |
| Terrain.TerrainGeometry.BringChunkTo | src/terrain/terrainGeometry.cpp:457-479 | one call of subdivideChunk as its callers use it: the chunk, when on the map, reaches the level, no chunk is lowered or raised above it unless it already was, levels above it are unchanged and every level only grows |
| Terrain.TerrainGeometry.SubdivideChunkTriangles | src/terrain/terrainGeometry.cpp:470-471 | the chunk's triangles at the level below, as getTrianglesInChunk lists them, are subdivided into the level; the level below only has fans re-sorted; every other level is unchanged |
| Terrain.TerrainGeometry.FinishChunk | src/terrain/terrainGeometry.cpp:470-476 | once the neighbourhood has reached the level below, the level becomes its old self with the chunk's triangles of the level below subdivided into it, the level below only has fans re-sorted, every other level is unchanged, and only the chunk's entry of the table changes, to the level, keeping the map valid |
| Terrain.TerrainGeometry.MarkReached | src/terrain/terrainGeometry.cpp:476 | the chunk is marked as having reached the level, keeping the levels graded; no mesh changes |
| Terrain.TerrainGeometry.GetTrianglesInChunk | src/terrain/terrainGeometry.cpp:481-488 | the level is clamped to MAX_SUBDIV_LVL, the chunk reaches it, no chunk is lowered, levels above the clamped level are unchanged, every level only grows, and the chunk's triangles at that level are returned |
| Terrain.TerrainGeometry.GetTrianglesNearPos | src/terrain/terrainGeometry.cpp:490-499 | the bucket of the point at min(requested, level reached by its chunk); nothing changes |
| Terrain.TerrainGeometry.GetBiome | src/terrain/terrainGeometry.cpp:501-510 | the biome of the point at min(requested, level reached by its chunk); nothing changes |
| Animation.TruncDiv | src/texture_handling/animationManager.cpp:33 | integer division truncates toward zero, so the quotient is non-zero exactly when the dividend's magnitude reaches the divisor |
| Animation.MsOf | src/texture_handling/animationManager.cpp:33 | asMilliseconds gives the whole milliseconds of a non-negative time |
| Animation.Advance | src/texture_handling/animationManager.cpp:28-47 | the frame stays below steps and moves by at most one step (mod steps); it moves exactly when the frame can move and the whole milliseconds reach the frame's length; the length is then subtracted, and the accumulated time stays between 0 and the input |
| Animation.Play | src/texture_handling/animationManager.cpp:28-47 | every frame of a run of updates stays below steps |
| Animation.Tick | src/texture_handling/animationManager.cpp:40-46 | one frame length shows the next frame and carries nothing over |
| Animation.PlayEvenly | src/texture_handling/animationManager.cpp:28-47 | frame lengths fed one per update step one frame at a time |
| Animation.ReachesLastFrame | src/texture_handling/animationManager.cpp:60-62 | getAnimationTime is the time to reach the last frame one frame length at a time |
| Animation.CyclesWithoutPause | src/texture_handling/animationManager.cpp:40-46 | without a pause an animation wraps round to frame 0 after steps frame lengths |
| Animation.PauseHoldsLastFrame | src/texture_handling/animationManager.cpp:31-38 | a looping animation with a pause stays on its last frame until the pause has elapsed, then shows frame 0 |
| Animation.AnimationManager.constructor | src/texture_handling/animationManager.cpp:6-14 | the manager starts on frame 0 of WAIT, alive, with no time accumulated |
| Animation.AnimationManager.LaunchAnimation | src/texture_handling/animationManager.cpp:16-26 | a living entity switches to the animation, restarting only if it changes; a dead one keeps everything; the texture layer is returned either way |
| Animation.AnimationManager.Update | src/texture_handling/animationManager.cpp:28-47 | the frame and the accumulated time become Advance of the old ones plus the elapsed time |
| Animation.AnimationManager.GetAnimationTime | src/texture_handling/animationManager.cpp:60-62 | (steps - 1) times the frame length, which is non-negative |
| IgElement.Normalize | src/igelement/igElement.cpp:83-90 | the result differs from the input by whole turns; it is in [0, 360) for a non-negative input and in (0, 360] for a negative one; an input in [0, 360) is kept |
| IgElement.NegativeTurnGivesFullTurn | src/igelement/igElement.cpp:86-87 | a negative whole number of turns gives 360, not 0 |
| IgElement.NormalizeTwice | src/igelement/igElement.cpp:83-90 | reducing twice is reducing once, except that 360 becomes 0 |
| IgElement.Flatten | src/igelement/igElement.cpp:70-74 | slot 3i + c holds coordinate c of corner i |
| IgElement.UnflattenFlatten | src/igelement/igElement.cpp:69-74 | the corners can be read back from the vertex buffer |
| IgElement.IgElement.constructor | src/igelement/igElement.cpp:13-45 | the position is kept, all 12 vertex slots are 0, the camera turn is 0, the element is hidden, the whole texture is pasted and the indices are 0, 1, 2, 3 |
| IgElement.IgElement.SetOrientation | src/igelement/igElement.cpp:83-90 | the orientation becomes Normalize of the argument |
| IgElement.IgElement.Update | src/igelement/igElement.cpp:63-67 | the camera turn becomes theta, and orientation plus camera turn stays the same angle |
| IgElement.IgElement.Set3DCorners | src/igelement/igElement.cpp:69-74 | the 12 slots hold the four corners, x, y, z each |
| Events.Inc | src/event_handlers/event_handler.cpp:32 | the size_t increment, modulo 2^64 |
| Events.Dec | src/event_handlers/event_handler.cpp:42 | the size_t decrement, one less modulo 2^64, with 0 wrapping to 2^64 - 1 |
| Events.Handle | src/event_handlers/event_handler.cpp:17-108 | every field of the state is accounted for. Running is false exactly for quit or Escape, and the handler changes exactly on `m`. Fingers are counted up and down modulo 2^64. A first finger with nothing pending restarts the clock and stores its position truncated to integer pixels; no other event touches either. The pending click changes only on a finger-up ending a tap: from none it becomes the touch-down point; from a point it is cleared, with exactly one double click pushed, exactly when the release is near it. Left mouse down records the drag origin and left mouse up resets it. A resize, `l` and `p` record exactly their call; nothing else calls out |
| Events.Trunc | src/event_handlers/event_handler.cpp:35-36 | the float-to-int conversion drops the fraction toward zero: within 1 of the value and no further from 0 |
| Events.ToPixel | src/event_handlers/event_handler.cpp:35-36 | each coordinate of the stored touch-down point is within one pixel of the finger position |
| Events.OnGoing | src/event_handlers/event_handler.cpp:110-123 | a pending click older than DOUBLECLICK_MS becomes one single click and is cleared; otherwise nothing changes |
| Events.ToggleTwice | src/event_handlers/event_handler.cpp:80-85 | pressing `m` twice restores the handler and the state |
| Events.FingerCountRestored | src/event_handlers/event_handler.cpp:31-42 | a finger down then up restores the count |
| Events.SingleTap | src/event_handlers/event_handler.cpp:31-53 | a quick short tap with nothing pending makes its touch-down point, truncated to pixels, pending and pushes nothing |
| Events.DoubleTap | src/event_handlers/event_handler.cpp:31-65 | two quick taps near the first touch-down pixel push exactly one double click carrying that pixel and clear the pending click |
| Events.TapThenTimeout | src/event_handlers/event_handler.cpp:110-120 | a tap left alone past DOUBLECLICK_MS becomes one single click at its touch-down pixel |
| Events.AbsDistBetweenAngles | src/event_handlers/event_handler.cpp:155-157 | the distance is non-negative and at most the plain difference; for angles in [0, 360) it is at most 180 and is the difference or its complement to 360 |
| Events.AbsDistSymmetric | src/event_handlers/event_handler.cpp:155-157 | the distance is symmetric |
| Events.AbsDistAcrossZero | src/tests/testHandler.cc:243-247 | 350 and 20 degrees are 30 degrees apart, both ways |
| Events.EventHandler.constructor | src/event_handlers/event_handler.cpp:10-15 | no finger, the drag origin and the pending click at the sentinel, the click clock started now |
| Events.EventHandler.HandleEvent | src/event_handlers/event_handler.cpp:17-108 | the new state, the running flag and the handler are those of Handle |
| Events.EventHandler.OnGoingEvents | src/event_handlers/event_handler.cpp:110-123 | the new state is that of OnGoing |

## Left out

**Floating point:**
- Positions, weights, angles and the barycentric test use exact reals, not `float`. Rounding is not modelled.
- `computeNormals` (`src/terrain/terrainGeometry.cpp:290-322`) and the face-normal normalisation in `addTriangle` are left out. Both need square roots and angles. Only the sign test that decides the swap is kept, as the z of the cross product.
- `goingToAddNPoints` is left out because it is only a capacity hint. The vertex list that `subdivideChunk` builds for `computeNormals` is still modelled (`Levels.GetVertices`).

**Unseen headers and helpers:**
- `vu::angle` is not part of this model. It is a parameter of the terrain, and the clockwise fan order is stated for every such function.
- The constants of `terrainGeometry.h` and `animationManager.h` are not part of this model and take the placeholder values above. `Biome` is a natural number, and `ANM_TYPE` is an integer with `WAIT = 0`.

**Iteration order:**
- `generateNewSubdivisionLevel` walks the `std::unordered_set` of triangles. The model walks them in arena order, which is the order of insertion.
- The `std::list` fan is a sequence.

**Levels:**
- `Levels.SubdivisionLevel.AddTriangle`: requires the three corners to lie in the world square. Outside it the flat bucket index `i * NB_CHUNKS + j` of the source can land on another chunk's row (a y beyond the map with a small x) or past the end of `_trianglesInSubChunk` (an x beyond the map), and a negative coordinate converts a negative float to an unsigned integer.
- `Terrain.TerrainGeometry.GetTrianglesNearPos`: requires a point in [0, MAX_COORD) on both axes. Outside it the source's flat index `cx * NB_CHUNKS + cy` reads memory that belongs to another chunk. With y == MAX_COORD and cx < NB_CHUNKS - 1, chunk y-index NB_CHUNKS lands on the first chunk of the next row, so the source reads that chunk's entry of `_chunkSubdivLvl` and its bucket. A y further off the map with a small x reads some other chunk the same way. Only an x at or beyond MAX_COORD, or cx == NB_CHUNKS - 1 with y == MAX_COORD, indexes past the end of the grid. The model does not state this aliasing.
- `Terrain.TerrainGeometry.GetBiome`: requires a point in [0, MAX_COORD) on both axes, for the same reason: off the map the source reads another chunk's level entry and bucket, or past the end of the grid.
- `Terrain.TerrainGeometry.GetTrianglesInChunk`: requires an on-map chunk. Off the map `subdivideChunk` does nothing. The source then reads row `x * NB_CHUNKS + y`, which for x < NB_CHUNKS and y >= NB_CHUNKS is the row of another chunk, unrefined for this call, and past the end of the grid otherwise.
- `Terrain.TerrainGeometry.SubdivideChunk`: requires a level no higher than `MAX_SUBDIV_LVL`. Its only caller here clamps the level, and a higher level indexes past the ladder.
- `Terrain.TerrainGeometry.SubdivideChunk`: its frame names every level, not only levels 0 to `lvl`. The ensures states instead that the levels above `lvl` keep their state. It also states that every level only grows and that level `lvl` gets the chunk's triangles subdivided into it.
- `Terrain.TerrainGeometry.SubdivideNeighbourhood`: its frame names every level, not only levels 0 to `lvl - 1`. The ensures states that the levels from `lvl` up keep their state.
- `Terrain.TerrainGeometry.SubdivideChunk`: the level below, as the neighbourhood's subdivision left it, is a ghost out-parameter. The ensures ties it to the old level below only by growth (`Extends`), not by the exact meshes the nine calls produce.
- `Terrain.TerrainGeometry.SubdivideChunk`: the nine recursive calls are one method that walks the 3 x 3 block in the source's order. The behaviour is the same as nine written-out calls.
- `Terrain.TerrainGeometry.constructor`: all levels start empty. Level 0 is filled from the height map outside this file, which is not part of this model.
- `MeshQuery.Hits`: a zero denominator counts as a miss. The source divides by zero in `float`, which gives an infinity or NaN that fails every comparison. The model does not state further rounding.
- `MeshQuery.TriLess`: compTri compares the `Vertex*` addresses of the corners. Addresses are not part of the model, so it compares the corners' arena indices instead. The order of getTrianglesInChunk's result, and so the order in which subdivideChunk subdivides a chunk's triangles, is stated for arena-index order: the arena stands in for the address order the allocator happens to give. The set of triangles listed does not depend on this.
- `MeshModel.SortIndices`: when no corner matches, the source prints an error and returns an unset array. The model returns None, and its callers only call it on a corner.
- `chunkSubdivider.cpp` is not modelled, because it is a worker thread whose point is concurrency.

**Animation:**
- `Animation.AnimationManager.LaunchAnimation`: requires the animation to be in the table. The source's `operator[]` would insert a default entry.
- `Animation.AnimationManager.constructor`: requires `WAIT` in the table and every entry to have at least one frame, a positive frame length and a non-negative pause. With a zero frame length, `update` divides by zero.
- `Animation.MsOf`: `asMilliseconds` returns a 32-bit integer. Its overflow after about 24 days of accumulated time is not modelled.
- `Animation.AnimationManager.Update`: the orientation update through `getClosestOrient` is left out because it uses float rounding. `getCurrentSprite` is left out for the same reason.

**In-game element:**
- `IgElement.IgElement.constructor`: `RANDOMF` is the parameter `random`. The OpenGL buffer calls are left out.
- `IgElement.Normalize`: the `(int)` cast of the source overflows once |orientation| / 360 exceeds 2^31 - 1, that is for |orientation| beyond about 7.7 * 10^11 degrees, where a float no longer holds whole degrees anyway. The model uses unbounded integers and does not model this overflow.
- `IgElement.IgElement.Set3DCorners`: the upload of the vertex buffer is left out.
- `draw` is left out.

**Input handler:**
- `Events.EventHandler.constructor`: `_nbFingers` is a static shared by every handler. The model gives each handler its own count, which starts at 0 as the static does.
- `Events.EventHandler.constructor`: `_beginDragTouch` starts at (0, 0).
- `Events.Handle`: the camera, the game log and the global timer are recorded as calls, not performed.
- `Events.Handle`: the pushed SDL events are a sequence of user events carrying the pending pixel. The cast of its coordinates to `uintptr_t` and `void*`, where a negative coordinate would wrap round, is not modelled.
- `Events.Handle`: the double-tap timer is a timestamp compared with the current time.
- `Events.Handle`: the finger positions arrive already scaled to window pixels, as exact reals. The float product `tfinger.x * getWindowW()` and its rounding are not modelled.
- `Events.ToPixel`: a finger position beyond the range of `int`, where the C++ conversion is undefined, is not modelled; the truncation toward zero is.
- `solveAcosXplusBsinXequalC` and `makeThetaFitInAllowedZone` (`src/event_handlers/event_handler.cpp:125-174`) are left out because they use trigonometry and square roots.
