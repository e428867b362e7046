/** The heuristic behind `hasCubeNearZero`: a unit cube left at the origin. */
module CubeCheck {
  import opened Wrappers
  import opened IfcModel

  /** The six extreme coordinates of the box, in the order the service lists them. */
  function BoundValues(b: Bounds): seq<real> {
    [b.min.x, b.min.y, b.min.z, b.max.x, b.max.y, b.max.z]
  }

  /** Every vertex coordinate lies in [-1, 1] metre or, with no vertex buffer, every
      bound lies in [-1000, 1000] millimetre. */
  predicate WithinOneMeterOfZero(g: Geometry) {
    match g.vertices
    case Some(vs) => forall i :: 0 <= i < |vs| ==> -1.0 <= vs[i] <= 1.0
    case None => forall i :: 0 <= i < 6 ==> -1000.0 <= BoundValues(g.boundsMm)[i] <= 1000.0
  }

  /** The volume lies strictly between 0.999 and 1.001 cubic metre and the object sits
      within a metre of the origin. */
  predicate IsCubeNearZero(g: Geometry) {
    0.999 < g.volume < 1.001 && WithinOneMeterOfZero(g)
  }

  /** The service's scan: it walks the vertex buffer (or else the six bounds) and stops
      at the first value out of range. */
  method AllVerticesWithinOneMeterOfZero(g: Geometry) returns (within: bool)
    ensures g.vertices.Some? ==>
      (within <==> forall i :: 0 <= i < |g.vertices.value| ==> -1.0 <= g.vertices.value[i] <= 1.0)
    ensures g.vertices.None? ==>
      (within <==> forall i :: 0 <= i < 6 ==> -1000.0 <= BoundValues(g.boundsMm)[i] <= 1000.0)
  {
    within := true;
    if g.vertices.Some? {
      var vs := g.vertices.value;
      var i := 0;
      while i < |vs|
        invariant 0 <= i <= |vs|
        invariant within
        invariant forall j :: 0 <= j < i ==> -1.0 <= vs[j] <= 1.0
      {
        if vs[i] < -1.0 || vs[i] > 1.0 {
          within := false;
          break;
        }
        i := i + 1;
      }
    } else {
      var d := BoundValues(g.boundsMm);
      var i := 0;
      while i < 6
        invariant 0 <= i <= 6
        invariant within
        invariant forall j :: 0 <= j < i ==> -1000.0 <= d[j] <= 1000.0
      {
        if d[i] < -1000.0 || d[i] > 1000.0 {
          within := false;
          break;
        }
        i := i + 1;
      }
    }
  }
}
