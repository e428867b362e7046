/** The per-object record the aggregation collects for the rankings. */
module Details {
  import opened IfcModel

  /** One product with its triangle count, volume in cubic metres and property count. */
  datatype ObjectDetails = ObjectDetails(
    product: Product,
    primitiveCount: int,
    volume: real,
    nrOfProperties: int)

  /** A fresh record: the product is fixed and the numeric fields hold Java's zero defaults. */
  function NewDetails(p: Product): (d: ObjectDetails)
    ensures d.product == p
    ensures d.primitiveCount == 0 && d.volume == 0.0 && d.nrOfProperties == 0
  {
    ObjectDetails(p, 0, 0.0, 0)
  }

  function SetNrTriangles(d: ObjectDetails, primitiveCount: int): ObjectDetails {
    d.(primitiveCount := primitiveCount)
  }

  function SetVolume(d: ObjectDetails, volume: real): ObjectDetails {
    d.(volume := volume)
  }

  function SetNrOfProperties(d: ObjectDetails, nrOfProperties: int): ObjectDetails {
    d.(nrOfProperties := nrOfProperties)
  }

  /** Triangles per cubic metre, 0 when the volume or the triangle count is 0 so that
      nothing is ever divided by zero. */
  function TrianglesPerVolume(d: ObjectDetails): (r: real)
    ensures r == 0.0 <==> d.volume == 0.0 || d.primitiveCount == 0
    ensures d.volume != 0.0 ==> r * d.volume == d.primitiveCount as real
  {
    if d.volume == 0.0 || d.primitiveCount == 0 then 0.0
    else (d.primitiveCount as real) / d.volume
  }

  /** A call of one of the record's setters. */
  datatype Update =
    | NrTriangles(primitiveCount: int)
    | Volume(volume: real)
    | NrOfProperties(nrOfProperties: int)

  function Apply(d: ObjectDetails, u: Update): ObjectDetails {
    match u
    case NrTriangles(n) => SetNrTriangles(d, n)
    case Volume(v) => SetVolume(d, v)
    case NrOfProperties(n) => SetNrOfProperties(d, n)
  }

  /** The record after a sequence of setter calls, in call order. */
  function ApplyAll(d: ObjectDetails, us: seq<Update>): ObjectDetails
    decreases |us|
  {
    if |us| == 0 then d else Apply(ApplyAll(d, us[..|us| - 1]), us[|us| - 1])
  }

  /** The value the last `setNrTriangles` call in `us` stored, else `default`. */
  function LastTriangles(us: seq<Update>, default: int): int
    decreases |us|
  {
    if |us| == 0 then default
    else if us[|us| - 1].NrTriangles? then us[|us| - 1].primitiveCount
    else LastTriangles(us[..|us| - 1], default)
  }

  function LastVolume(us: seq<Update>, default: real): real
    decreases |us|
  {
    if |us| == 0 then default
    else if us[|us| - 1].Volume? then us[|us| - 1].volume
    else LastVolume(us[..|us| - 1], default)
  }

  function LastProperties(us: seq<Update>, default: int): int
    decreases |us|
  {
    if |us| == 0 then default
    else if us[|us| - 1].NrOfProperties? then us[|us| - 1].nrOfProperties
    else LastProperties(us[..|us| - 1], default)
  }

  /** Every getter returns what the last matching setter stored (a setter never touches
      another field), and the product given to the constructor is returned unchanged
      whatever setters ran, since there is no setter for it. */
  lemma {:induction false} SettersAndGetters(d: ObjectDetails, us: seq<Update>)
    ensures ApplyAll(d, us).product == d.product
    ensures ApplyAll(d, us).primitiveCount == LastTriangles(us, d.primitiveCount)
    ensures ApplyAll(d, us).volume == LastVolume(us, d.volume)
    ensures ApplyAll(d, us).nrOfProperties == LastProperties(us, d.nrOfProperties)
    decreases |us|
  {
    if |us| > 0 {
      SettersAndGetters(d, us[..|us| - 1]);
    }
  }

  /** A fresh record that no setter touched reports zero triangles per volume. */
  lemma FreshRecordHasNoDensity(p: Product, us: seq<Update>)
    requires forall i :: 0 <= i < |us| ==> !us[i].NrTriangles?
    ensures TrianglesPerVolume(ApplyAll(NewDetails(p), us)) == 0.0
  {
    SettersAndGetters(NewDetails(p), us);
    NoTrianglesSetKeepsDefault(us, 0);
  }

  lemma {:induction false} NoTrianglesSetKeepsDefault(us: seq<Update>, default: int)
    requires forall i :: 0 <= i < |us| ==> !us[i].NrTriangles?
    ensures LastTriangles(us, default) == default
    decreases |us|
  {
    if |us| > 0 {
      NoTrianglesSetKeepsDefault(us[..|us| - 1], default);
    }
  }
}
