/**
  The in-game element of src/igelement/igElement.cpp: a textured rectangle standing in the
  scene, with the vertex buffer that holds its four 3D corners, the texture coordinates and
  the index buffer it draws from, and an orientation kept in degrees relative to the camera.
  The OpenGL buffers are outside this model; the arrays are the client-side copies the
  element fills before uploading them.
 */
module IgElement {
  import MeshModel

  type Vec3 = MeshModel.Vec3

  const FULL_TURN: real := 360.0

  /** Two angles in degrees that differ by a whole number of turns. */
  predicate SameAngle(a: real, b: real) {
    ((a - b) / FULL_TURN).Floor as real == (a - b) / FULL_TURN
  }

  /** Whole turns added to an angle leave it the same angle. */
  lemma AddTurns(a: real, b: real, k: int)
    requires a == b + FULL_TURN * k as real
    ensures SameAngle(a, b)
  {
    assert (a - b) / FULL_TURN == k as real;
  }

  /** The whole turns in a non-negative angle, and what is left of it. */
  lemma FloorTurns(o: real)
    requires 0.0 <= o
    ensures var k := (o / FULL_TURN).Floor;
      0 <= k && FULL_TURN * k as real <= o < FULL_TURN * k as real + FULL_TURN
  {
    var q := o / FULL_TURN;
    assert o == FULL_TURN * q;
    assert q.Floor as real <= q < q.Floor as real + 1.0;
  }

  /** setOrientation's reduction of an angle. The `(int)` cast of the source truncates toward
      zero, which is the floor here because it is only ever applied to a non-negative value. */
  function Normalize(o: real): (r: real)
    ensures SameAngle(r, o)
    ensures 0.0 <= o ==> 0.0 <= r < FULL_TURN
    ensures o < 0.0 ==> 0.0 < r <= FULL_TURN
    ensures 0.0 <= o < FULL_TURN ==> r == o
  {
    if o < 0.0 then
      var k := (-o / FULL_TURN).Floor;
      FloorTurns(-o);
      AddTurns(o + FULL_TURN + FULL_TURN * k as real, o, k + 1);
      o + FULL_TURN + FULL_TURN * k as real
    else
      var k := (o / FULL_TURN).Floor;
      FloorTurns(o);
      AddTurns(o - FULL_TURN * k as real, o, -k);
      assert o < FULL_TURN ==> k == 0;
      o - FULL_TURN * k as real
  }

  /** A negative whole number of turns comes out as a full turn, not as 0: the range is [0, 360)
      for non-negative input and (0, 360] for negative input. */
  lemma NegativeTurnGivesFullTurn(k: nat)
    requires 0 < k
    ensures Normalize(-FULL_TURN * k as real) == FULL_TURN
  {
    var o := -FULL_TURN * k as real;
    assert -o / FULL_TURN == k as real;
    assert (k as real).Floor == k;
  }

  /** Reducing twice gives what reducing once gives, except that a full turn becomes 0. */
  lemma NormalizeTwice(o: real)
    ensures Normalize(Normalize(o)) == (if Normalize(o) == FULL_TURN then 0.0 else Normalize(o))
  {
  }

  function Coord(v: Vec3, c: nat): real
    requires c < 3
  {
    if c == 0 then v.x else if c == 1 then v.y else v.z
  }

  /** The corners laid out one after the other, x, y, z each. */
  function Flatten(cs: seq<Vec3>): (r: seq<real>)
    ensures |r| == 3 * |cs|
    ensures forall j | 0 <= j < |r| :: r[j] == Coord(cs[j / 3], j % 3)
  {
    if cs == [] then []
    else
      var last := cs[|cs| - 1];
      Flatten(cs[..|cs| - 1]) + [last.x, last.y, last.z]
  }

  /** Reading corners back out of a vertex buffer. The source has no such operation: this is
      the inverse that UnflattenFlatten uses to show Flatten loses nothing. */
  function Unflatten(vs: seq<real>): (cs: seq<Vec3>)
    requires |vs| % 3 == 0
    ensures 3 * |cs| == |vs|
    decreases |vs|
  {
    if vs == [] then [] else [MeshModel.Vec3(vs[0], vs[1], vs[2])] + Unflatten(vs[3..])
  }

  /** The vertex buffer holds the corners exactly: they can be read back from it. */
  lemma {:induction false} UnflattenFlatten(cs: seq<Vec3>)
    ensures Unflatten(Flatten(cs)) == cs
    decreases |cs|
  {
    if cs != [] {
      var vs := Flatten(cs);
      assert vs[0] == cs[0].x && vs[1] == cs[0].y && vs[2] == cs[0].z;
      assert vs[3..] == Flatten(cs[1..]) by {
        forall j | 0 <= j < |vs| - 3
          ensures vs[3..][j] == Flatten(cs[1..])[j]
        {
          assert (j + 3) / 3 == j / 3 + 1 && (j + 3) % 3 == j % 3;
        }
      }
      UnflattenFlatten(cs[1..]);
    }
  }

  class IgElement {
    var pos: (real, real)
    var orientation: real
    var camOrientation: real
    var visible: bool
    /** The four corners, x, y, z each. */
    const vertices: array<real>
    /** Texture coordinates of the four corners. */
    const coord2D: array<real>
    /** The order in which the corners are drawn. */
    const indices: array<nat>

    ghost predicate Valid()
      reads this
    {
      vertices.Length == 12 && coord2D.Length == 8 && indices.Length == 4 && vertices != coord2D
    }

    /** A new element at `position`, facing `random` times a full turn, with every corner at
        the origin, the whole texture pasted on the rectangle and the corners drawn in order.
        `random` stands for RANDOMF. */
    constructor(position: (real, real), random: real)
      ensures Valid() && fresh(vertices) && fresh(coord2D) && fresh(indices)
      ensures pos == position && orientation == random * FULL_TURN && camOrientation == 0.0 && !visible
      ensures vertices[..] == seq(12, _ => 0.0)
      ensures coord2D[..] == [1.0, 0.0, 0.0, 0.0, 0.0, 1.0, 1.0, 1.0]
      ensures indices[..] == [0, 1, 2, 3]
    {
      var vs := new real[12];
      for i := 0 to 12
        invariant forall j | 0 <= j < i :: vs[j] == 0.0
      {
        vs[i] := 0.0;
      }
      var ix := new nat[4];
      for i := 0 to 4
        invariant forall j | 0 <= j < i :: ix[j] == j
        invariant vs[..] == seq(12, _ => 0.0)
      {
        ix[i] := i;
      }
      var cs := new real[8];
      cs[0], cs[1], cs[2], cs[3] := 1.0, 0.0, 0.0, 0.0;
      cs[4], cs[5], cs[6], cs[7] := 0.0, 1.0, 1.0, 1.0;
      assert cs[..] == [1.0, 0.0, 0.0, 0.0, 0.0, 1.0, 1.0, 1.0];
      assert ix[..] == [0, 1, 2, 3];
      pos := position;
      camOrientation := 0.0;
      visible := false;
      orientation := random * FULL_TURN;
      vertices, coord2D, indices := vs, cs, ix;
    }

    /** setOrientation(nOrientation). */
    method SetOrientation(o: real)
      modifies this`orientation
      ensures orientation == Normalize(o)
    {
      orientation := o;
      if orientation < 0.0 {
        orientation := orientation + FULL_TURN + FULL_TURN * (-orientation / FULL_TURN).Floor as real;
      } else {
        orientation := orientation - FULL_TURN * (orientation / FULL_TURN).Floor as real;
      }
    }

    /** update(elapsed, theta): when the camera turns to `theta` the element turns the other
        way, so that its orientation plus the camera's stays the same angle. */
    method Update(elapsedUs: int, theta: real)
      modifies this`orientation, this`camOrientation
      ensures orientation == Normalize(old(orientation) + old(camOrientation) - theta)
      ensures camOrientation == theta
      ensures SameAngle(orientation + camOrientation, old(orientation) + old(camOrientation))
    {
      SetOrientation(orientation + camOrientation - theta);
      camOrientation := theta;
    }

    /** set3DCorners(nCorners): the vertex buffer now holds the four corners, and nothing else
        of the element changes. */
    method Set3DCorners(corners: seq<Vec3>)
      requires Valid() && |corners| == 4
      modifies vertices
      ensures Valid()
      ensures vertices[..] == Flatten(corners)
    {
      for i := 0 to 4
        invariant forall j | 0 <= j < 3 * i :: vertices[j] == Coord(corners[j / 3], j % 3)
      {
        vertices[3 * i] := corners[i].x;
        vertices[3 * i + 1] := corners[i].y;
        vertices[3 * i + 2] := corners[i].z;
      }
      assert vertices[..] == Flatten(corners);
    }
  }
}
