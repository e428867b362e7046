/** The parts of the IFC model graph the analytics service reads, as plain values. */
module IfcModel {
  import opened Wrappers

  /** BIMserver's object id (a Java `long`); it stands for the object reference itself. */
  type Oid = int

  /** The identifying attributes of a rooted object: its `Name` and its `GlobalId`
      (absent both when the value is null and when the class has no such attribute). */
  datatype Label = Label(name: Option<string>, globalId: Option<string>)

  datatype Point = Point(x: real, y: real, z: real)

  /** Axis-aligned bounding box in millimetres. */
  datatype Bounds = Bounds(min: Point, max: Point)

  /** The geometry engine's summary of one object. Volume and area are already in
      cubic and square metres and vertex coordinates in metres; `areaOverride` is the
      engine-supplied surface area that takes precedence over the polygon area. */
  datatype Geometry = Geometry(
    primitiveCount: nat,
    volume: real,
    area: real,
    areaOverride: Option<real>,
    vertices: Option<seq<real>>,
    boundsMm: Bounds)

  /** An instance of a concrete subtype of IfcProduct with the counts the property-set
      utilities report for it. */
  datatype Product = Product(
    oid: Oid,
    typeName: string,
    naming: Label,
    geometry: Option<Geometry>,
    nrOfPsets: nat,
    nrOfProperties: nat,
    nrOfRelations: nat)

  /** The area the report uses: the engine's override when present, else the polygon area. */
  function Area(g: Geometry): real {
    g.areaOverride.GetOr(g.area)
  }

  /** One `key: value` pair of a report node. */
  datatype Field = Field(key: string, value: string)

  predicate HasField(fields: seq<Field>, key: string, value: string) {
    exists i :: 0 <= i < |fields| && fields[i] == Field(key, value)
  }

  predicate HasKey(fields: seq<Field>, key: string) {
    exists i :: 0 <= i < |fields| && fields[i].key == key
  }

  /** The fields `putNameAndGuid` adds to a node: `name` only when the name is not
      null, then `guid` only when the object has a non-null GlobalId. */
  function NameAndGuid(l: Label): (r: seq<Field>)
    ensures |r| <= 2
    ensures forall i :: 0 <= i < |r| ==> r[i].key == "name" || r[i].key == "guid"
    ensures HasKey(r, "name") <==> l.name.Some?
    ensures HasKey(r, "guid") <==> l.globalId.Some?
    ensures l.name.Some? ==> HasField(r, "name", l.name.value)
    ensures l.globalId.Some? ==> HasField(r, "guid", l.globalId.value)
    ensures l.name.Some? && l.globalId.Some? ==> r[0].key == "name" && r[1].key == "guid"
  {
    var name := if l.name.Some? then [Field("name", l.name.value)] else [];
    var guid := if l.globalId.Some? then [Field("guid", l.globalId.value)] else [];
    var r := name + guid;
    assert l.name.Some? ==> r[0] == Field("name", l.name.value);
    assert l.globalId.Some? ==> r[|r| - 1] == Field("guid", l.globalId.value);
    assert forall i :: 0 <= i < |r| ==> (r[i].key == "name" <==> l.name.Some? && i == 0);
    r
  }
}
