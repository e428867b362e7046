/** The `aggregations` part of the report: per-type statistics, global totals, the two
    top-ten rankings, and the running count of near-origin unit cubes. */
module Aggregation {
  import opened Wrappers
  import opened Seqs
  import opened IfcModel
  import opened Details
  import CubeCheck
  import Ranking

  /** The instances of exactly the concrete type `t`, in model order. */
  function OfType(products: seq<Product>, t: string): seq<Product> {
    Filter(products, (p: Product) => p.typeName == t)
  }

  function Triangles(p: Product): int {
    match p.geometry
    case Some(g) => g.primitiveCount
    case None => 0
  }

  function Psets(p: Product): int { p.nrOfPsets }

  function Properties(p: Product): int { p.nrOfProperties }

  function Relations(p: Product): int { p.nrOfRelations }

  /** 1 for a product whose geometry is a unit cube near the origin. */
  function CubeIndicator(p: Product): int {
    if p.geometry.Some? && CubeCheck.IsCubeNearZero(p.geometry.value) then 1 else 0
  }

  function SpaceArea(p: Product): real {
    match p.geometry
    case Some(g) => Area(g)
    case None => 0.0
  }

  function SpaceVolume(p: Product): real {
    match p.geometry
    case Some(g) => g.volume
    case None => 0.0
  }

  /** The record built for one product: a fresh record, then the geometry's triangle
      count and volume when it has geometry, then its property count. */
  function RecordOf(p: Product): (d: ObjectDetails)
    ensures d.product == p
    ensures d.nrOfProperties == p.nrOfProperties
    ensures p.geometry.None? ==> d.primitiveCount == 0 && d.volume == 0.0
    ensures p.geometry.Some? ==>
      d.primitiveCount == p.geometry.value.primitiveCount && d.volume == p.geometry.value.volume
  {
    var blank := NewDetails(p);
    var measured :=
      match p.geometry
      case Some(g) => SetVolume(SetNrTriangles(blank, g.primitiveCount), g.volume)
      case None => blank;
    SetNrOfProperties(measured, p.nrOfProperties)
  }

  function Records(ps: seq<Product>): (ds: seq<ObjectDetails>)
    ensures |ds| == |ps|
    ensures forall i :: 0 <= i < |ps| ==> ds[i] == RecordOf(ps[i])
  {
    seq(|ps|, i requires 0 <= i < |ps| => RecordOf(ps[i]))
  }

  lemma RecordsAppend(a: seq<Product>, b: seq<Product>)
    ensures Records(a + b) == Records(a) + Records(b)
  {
    assert forall i :: 0 <= i < |a + b| ==> Records(a + b)[i] == (Records(a) + Records(b))[i];
  }

  function ProductsOf(ds: seq<ObjectDetails>): (ps: seq<Product>)
    ensures |ps| == |ds|
    ensures forall i :: 0 <= i < |ds| ==> ps[i] == ds[i].product
  {
    seq(|ds|, i requires 0 <= i < |ds| => ds[i].product)
  }

  /** `avg` is `total / n` truncated toward zero, as Java's `int` division computes it. */
  predicate IsTruncatedMean(avg: int, total: int, n: int) {
    if total >= 0 then avg * n <= total < avg * n + n
    else avg * n - n < total <= avg * n
  }

  /** Java's integer division of `a` by a positive `b`. */
  function TruncDiv(a: int, b: int): (q: int)
    requires b > 0
    ensures IsTruncatedMean(q, a, b)
  {
    if a >= 0 then a / b else -((-a) / b)
  }

  /** One `perType` entry. */
  datatype TypeStats = TypeStats(
    numberOfObjects: nat,
    averageNumberOfTriangles: Option<int>,
    averageNumberOfPsets: int,
    averageNumberOfProperties: int,
    averageNumberOfRelations: int)

  /** The entry of a type with at least one instance: its count, and each average the
      truncated mean over its instances; the triangle average only when the type has
      at least one triangle. */
  function StatsOf(ps: seq<Product>): (s: TypeStats)
    requires |ps| > 0
    ensures s.numberOfObjects == |ps|
    ensures s.averageNumberOfTriangles.Some? <==> Sum(ps, Triangles) > 0
    ensures s.averageNumberOfTriangles.Some? ==>
      IsTruncatedMean(s.averageNumberOfTriangles.value, Sum(ps, Triangles), |ps|)
    ensures IsTruncatedMean(s.averageNumberOfPsets, Sum(ps, Psets), |ps|)
    ensures IsTruncatedMean(s.averageNumberOfProperties, Sum(ps, Properties), |ps|)
    ensures IsTruncatedMean(s.averageNumberOfRelations, Sum(ps, Relations), |ps|)
  {
    var n := |ps|;
    var triangles := Sum(ps, Triangles);
    TypeStats(
      n,
      if triangles > 0 then Some(TruncDiv(triangles, n)) else None,
      TruncDiv(Sum(ps, Psets), n),
      TruncDiv(Sum(ps, Properties), n),
      TruncDiv(Sum(ps, Relations), n))
  }

  /** The global accumulators of the aggregation pass. */
  datatype Totals = Totals(
    triangles: int,
    spaceM2: real,
    spaceM3: real,
    objects: int,
    properties: int,
    psets: int,
    relations: int)

  datatype AggState = AggState(
    perType: map<string, TypeStats>,
    records: seq<ObjectDetails>,
    totals: Totals,
    cubesNearZero: int)

  /** One iteration of the loop over product types: a type with no instances is skipped,
      any other adds its entry, its records and its sums. Only `IfcSpace` instances
      contribute area and volume to the space totals. */
  function AddType(st: AggState, t: string, products: seq<Product>): (r: AggState)
    ensures |OfType(products, t)| == 0 ==> r == st
    ensures |OfType(products, t)| > 0 ==> r.perType == st.perType[t := StatsOf(OfType(products, t))]
    ensures r.records == st.records + Records(OfType(products, t))
    ensures r.totals.objects == st.totals.objects + |OfType(products, t)|
  {
    var ps := OfType(products, t);
    if |ps| == 0 then st
    else
      var isSpace := t == "IfcSpace";
      AggState(
        st.perType[t := StatsOf(ps)],
        st.records + Records(ps),
        Totals(
          st.totals.triangles + Sum(ps, Triangles),
          st.totals.spaceM2 + (if isSpace then SumReal(ps, SpaceArea) else 0.0),
          st.totals.spaceM3 + (if isSpace then SumReal(ps, SpaceVolume) else 0.0),
          st.totals.objects + |ps|,
          st.totals.properties + Sum(ps, Properties),
          st.totals.psets + Sum(ps, Psets),
          st.totals.relations + Sum(ps, Relations)),
        st.cubesNearZero + Sum(ps, CubeIndicator))
  }

  /** The instances of the given types, type by type. */
  function Grouped(types: seq<string>, products: seq<Product>): seq<Product>
    decreases |types|
  {
    if |types| == 0 then []
    else Grouped(types[..|types| - 1], products) + OfType(products, types[|types| - 1])
  }

  /** The sum of `f` over the instances of the given types, type by type. */
  function SumByType(types: seq<string>, products: seq<Product>, f: Product -> int): int
    decreases |types|
  {
    if |types| == 0 then 0
    else SumByType(types[..|types| - 1], products, f) + Sum(OfType(products, types[|types| - 1]), f)
  }

  /** The loop over the product types: the service's `processAggregations` up to the
      rankings, starting from the instance's current `cubesNearZero`. */
  function AggregateTypes(types: seq<string>, products: seq<Product>, cubesNearZero: int): (st: AggState)
    ensures forall t :: t in st.perType <==> t in types && |OfType(products, t)| > 0
    ensures forall t :: t in st.perType ==> |OfType(products, t)| > 0 && st.perType[t] == StatsOf(OfType(products, t))
    ensures st.records == Records(Grouped(types, products))
    ensures st.totals.objects == |Grouped(types, products)|
    decreases |types|
  {
    if |types| == 0 then
      AggState(map[], [], Totals(0, 0.0, 0.0, 0, 0, 0, 0), cubesNearZero)
    else
      var pre := types[..|types| - 1];
      var t := types[|types| - 1];
      assert forall u :: u in types <==> u in pre || u == t;
      var st := AggregateTypes(pre, products, cubesNearZero);
      RecordsAppend(Grouped(pre, products), OfType(products, t));
      AddType(st, t, products)
  }

  /** The global sums and the cube counter are the per-type sums added up over the types. */
  lemma {:induction false} AggregateSums(types: seq<string>, products: seq<Product>, cubesNearZero: int)
    ensures var st := AggregateTypes(types, products, cubesNearZero);
      && st.totals.triangles == SumByType(types, products, Triangles)
      && st.totals.properties == SumByType(types, products, Properties)
      && st.totals.psets == SumByType(types, products, Psets)
      && st.totals.relations == SumByType(types, products, Relations)
      && st.cubesNearZero == cubesNearZero + SumByType(types, products, CubeIndicator)
    decreases |types|
  {
    if |types| > 0 {
      var pre := types[..|types| - 1];
      AggregateSums(pre, products, cubesNearZero);
    }
  }

  /** Only the instances of `IfcSpace` add area and volume: with every type listed once,
      the space totals are the sums over those instances, and zero when `IfcSpace` is not
      listed. */
  lemma {:induction false} SpaceTotals(types: seq<string>, products: seq<Product>, cubesNearZero: int)
    requires Distinct(types)
    ensures var st := AggregateTypes(types, products, cubesNearZero);
      && st.totals.spaceM2 == (if "IfcSpace" in types then SumReal(OfType(products, "IfcSpace"), SpaceArea) else 0.0)
      && st.totals.spaceM3 == (if "IfcSpace" in types then SumReal(OfType(products, "IfcSpace"), SpaceVolume) else 0.0)
    decreases |types|
  {
    if |types| > 0 {
      var pre := types[..|types| - 1];
      var t := types[|types| - 1];
      assert Distinct(pre) by {
        forall i, j | 0 <= i < j < |pre|
          ensures pre[i] != pre[j]
        {
          assert pre[i] == types[i] && pre[j] == types[j];
        }
      }
      assert "IfcSpace" in types <==> "IfcSpace" in pre || t == "IfcSpace";
      if t == "IfcSpace" {
        assert "IfcSpace" !in pre by {
          forall i | 0 <= i < |pre|
            ensures pre[i] != t
          {
            assert pre[i] == types[i];
          }
        }
      }
      SpaceTotals(pre, products, cubesNearZero);
    }
  }

  /** A type missing from a list that names every product's type has no instances. */
  lemma {:induction false} UnlistedTypeIsEmpty(types: seq<string>, products: seq<Product>, t: string)
    requires forall i :: 0 <= i < |products| ==> products[i].typeName in types
    requires t !in types
    ensures OfType(products, t) == []
    decreases |products|
  {
    if |products| > 0 {
      UnlistedTypeIsEmpty(types, products[..|products| - 1], t);
    }
  }

  /** When every product's type is listed, an unlisted `IfcSpace` has no instances. */
  lemma SpacesCovered(types: seq<string>, products: seq<Product>, cubesNearZero: int)
    requires Distinct(types)
    requires forall i :: 0 <= i < |products| ==> products[i].typeName in types
    ensures var st := AggregateTypes(types, products, cubesNearZero);
      && st.totals.spaceM2 == SumReal(OfType(products, "IfcSpace"), SpaceArea)
      && st.totals.spaceM3 == SumReal(OfType(products, "IfcSpace"), SpaceVolume)
  {
    SpaceTotals(types, products, cubesNearZero);
    if "IfcSpace" !in types {
      UnlistedTypeIsEmpty(types, products, "IfcSpace");
    }
  }

  /** The sum of the `numberOfObjects` of the entries of the listed types. */
  function PerTypeObjects(types: seq<string>, perType: map<string, TypeStats>): int
    decreases |types|
  {
    if |types| == 0 then 0
    else
      var t := types[|types| - 1];
      PerTypeObjects(types[..|types| - 1], perType) + (if t in perType then perType[t].numberOfObjects else 0)
  }

  lemma {:induction false} PerTypeObjectsIsGroupedSize(types: seq<string>, products: seq<Product>, perType: map<string, TypeStats>)
    requires forall t :: t in types ==> (t in perType <==> |OfType(products, t)| > 0)
    requires forall t :: t in perType ==> perType[t].numberOfObjects == |OfType(products, t)|
    ensures PerTypeObjects(types, perType) == |Grouped(types, products)|
    decreases |types|
  {
    if |types| > 0 {
      var pre := types[..|types| - 1];
      assert forall u :: u in pre ==> u in types;
      PerTypeObjectsIsGroupedSize(pre, products, perType);
    }
  }

  /** `totalNrOfObjects` is the sum of `numberOfObjects` over the listed types (a type
      listed twice counts twice, as the loop visits it twice), and one record is
      collected per counted object. */
  lemma TotalObjectsIsSumOfPerType(types: seq<string>, products: seq<Product>, cubesNearZero: int)
    ensures AggregateTypes(types, products, cubesNearZero).totals.objects
      == PerTypeObjects(types, AggregateTypes(types, products, cubesNearZero).perType)
    ensures |AggregateTypes(types, products, cubesNearZero).records|
      == AggregateTypes(types, products, cubesNearZero).totals.objects
  {
    var st := AggregateTypes(types, products, cubesNearZero);
    PerTypeObjectsIsGroupedSize(types, products, st.perType);
  }

  lemma OfTypeSnoc(ps: seq<Product>, x: Product, t: string)
    ensures OfType(ps + [x], t) == OfType(ps, t) + (if x.typeName == t then [x] else [])
  {
    assert (ps + [x])[..|ps + [x]| - 1] == ps;
  }

  lemma SumSnoc(ps: seq<Product>, x: Product, f: Product -> int)
    ensures Sum(ps + [x], f) == Sum(ps, f) + f(x)
  {
    assert (ps + [x])[..|ps + [x]| - 1] == ps;
  }

  lemma {:induction false} SumByTypeSnoc(types: seq<string>, ps: seq<Product>, x: Product, f: Product -> int)
    requires Distinct(types)
    ensures SumByType(types, ps + [x], f) == SumByType(types, ps, f) + (if x.typeName in types then f(x) else 0)
    decreases |types|
  {
    if |types| > 0 {
      var pre, t := types[..|types| - 1], types[|types| - 1];
      assert forall u :: u in types <==> u in pre || u == t;
      assert t !in pre;
      SumByTypeSnoc(pre, ps, x, f);
      OfTypeSnoc(ps, x, t);
      if x.typeName == t {
        SumSnoc(OfType(ps, t), x, f);
      }
    }
  }

  lemma {:induction false} SumByTypeEmpty(types: seq<string>, f: Product -> int)
    ensures SumByType(types, [], f) == 0
    decreases |types|
  {
    if |types| > 0 {
      SumByTypeEmpty(types[..|types| - 1], f);
    }
  }

  /** When the type list names every product's type exactly once, summing type by type
      is summing over all products. */
  lemma {:induction false} SumByTypeIsSum(types: seq<string>, ps: seq<Product>, f: Product -> int)
    requires Distinct(types)
    requires forall i :: 0 <= i < |ps| ==> ps[i].typeName in types
    ensures SumByType(types, ps, f) == Sum(ps, f)
    decreases |ps|
  {
    if |ps| == 0 {
      SumByTypeEmpty(types, f);
    } else {
      var pre, x := ps[..|ps| - 1], ps[|ps| - 1];
      assert ps == pre + [x];
      SumByTypeIsSum(types, pre, f);
      SumByTypeSnoc(types, pre, x, f);
    }
  }

  lemma {:induction false} GroupedSnoc(types: seq<string>, ps: seq<Product>, x: Product)
    requires Distinct(types)
    ensures multiset(Grouped(types, ps + [x]))
      == multiset(Grouped(types, ps)) + (if x.typeName in types then multiset{x} else multiset{})
    decreases |types|
  {
    if |types| > 0 {
      var pre, t := types[..|types| - 1], types[|types| - 1];
      assert forall u :: u in types <==> u in pre || u == t;
      assert t !in pre;
      GroupedSnoc(pre, ps, x);
      OfTypeSnoc(ps, x, t);
    }
  }

  lemma {:induction false} GroupedEmpty(types: seq<string>)
    ensures Grouped(types, []) == []
    decreases |types|
  {
    if |types| > 0 {
      GroupedEmpty(types[..|types| - 1]);
    }
  }

  /** When the type list names every product's type exactly once, the instances listed
      type by type are a permutation of the products. */
  lemma {:induction false} GroupedIsPermutation(types: seq<string>, ps: seq<Product>)
    requires Distinct(types)
    requires forall i :: 0 <= i < |ps| ==> ps[i].typeName in types
    ensures multiset(Grouped(types, ps)) == multiset(ps)
    decreases |ps|
  {
    if |ps| == 0 {
      GroupedEmpty(types);
    } else {
      var pre, x := ps[..|ps| - 1], ps[|ps| - 1];
      assert ps == pre + [x];
      GroupedIsPermutation(types, pre);
      GroupedSnoc(types, pre, x);
    }
  }

  /** Every concrete product type is enumerated once: then every product gets exactly one
      record, `totalNrOfObjects` is the number of products, the triangle, property, pset
      and relation totals are sums over all products, and every product whose geometry
      is a unit cube near the origin adds one to `cubesNearZero`; the space totals are
      the area and volume summed over the `IfcSpace` instances. */
  lemma AggregationCoversModel(types: seq<string>, products: seq<Product>, cubesNearZero: int)
    requires Distinct(types)
    requires forall i :: 0 <= i < |products| ==> products[i].typeName in types
    ensures var st := AggregateTypes(types, products, cubesNearZero);
      && multiset(ProductsOf(st.records)) == multiset(products)
      && st.totals.objects == |products|
      && st.totals.triangles == Sum(products, Triangles)
      && st.totals.properties == Sum(products, Properties)
      && st.totals.psets == Sum(products, Psets)
      && st.totals.relations == Sum(products, Relations)
      && st.cubesNearZero == cubesNearZero + Sum(products, CubeIndicator)
      && st.totals.spaceM2 == SumReal(OfType(products, "IfcSpace"), SpaceArea)
      && st.totals.spaceM3 == SumReal(OfType(products, "IfcSpace"), SpaceVolume)
  {
    var st := AggregateTypes(types, products, cubesNearZero);
    SpacesCovered(types, products, cubesNearZero);
    GroupedIsPermutation(types, products);
    assert ProductsOf(st.records) == Grouped(types, products);
    assert |Grouped(types, products)| == |multiset(Grouped(types, products))|;
    AggregateSums(types, products, cubesNearZero);
    SumByTypeIsSum(types, products, Triangles);
    SumByTypeIsSum(types, products, Properties);
    SumByTypeIsSum(types, products, Psets);
    SumByTypeIsSum(types, products, Relations);
    SumByTypeIsSum(types, products, CubeIndicator);
  }

  /** Sort key of the second ranking. */
  function PropertyKey(d: ObjectDetails): real {
    d.nrOfProperties as real
  }

  /** The records as left by the first sort, by descending triangles per volume. */
  function ByComplexity(records: seq<ObjectDetails>): seq<ObjectDetails> {
    Ranking.SortDesc(records, TrianglesPerVolume)
  }

  /** The ten records with the highest triangles per volume. */
  function TopTenMostComplex(records: seq<ObjectDetails>): seq<ObjectDetails> {
    Ranking.TopK(records, 10, TrianglesPerVolume)
  }

  /** The ten records with the most properties; the second sort runs on the list the
      first sort left behind. */
  function TopTenMostProperties(records: seq<ObjectDetails>): seq<ObjectDetails> {
    Ranking.TopK(ByComplexity(records), 10, PropertyKey)
  }

  /** `topTenMostProperties` has min(10, n) entries in non-increasing property count, all
      taken from the records, and no record left out has more properties than any listed. */
  lemma TopTenMostPropertiesSpec(records: seq<ObjectDetails>)
    ensures var top := TopTenMostProperties(records);
      && |top| == Ranking.Min(10, |records|)
      && (forall i, j :: 0 <= i < j < |top| ==> top[i].nrOfProperties >= top[j].nrOfProperties)
      && multiset(top) <= multiset(records)
      && (forall x, i :: x in multiset(records) - multiset(top) && 0 <= i < |top|
            ==> x.nrOfProperties <= top[i].nrOfProperties)
  {
    var sorted := ByComplexity(records);
    Ranking.TopKSpec(sorted, 10, PropertyKey);
    var top := TopTenMostProperties(records);
    assert multiset(sorted) == multiset(records);
    forall i, j | 0 <= i < j < |top|
      ensures top[i].nrOfProperties >= top[j].nrOfProperties
    {
      assert PropertyKey(top[i]) >= PropertyKey(top[j]);
    }
    forall x, i | x in multiset(records) - multiset(top) && 0 <= i < |top|
      ensures x.nrOfProperties <= top[i].nrOfProperties
    {
      assert PropertyKey(x) <= PropertyKey(top[i]);
    }
  }

  /** `topTenMostComplexObjects` has min(10, n) entries in non-increasing triangles per
      volume, all taken from the records, and no record left out has a higher density. */
  lemma TopTenMostComplexSpec(records: seq<ObjectDetails>)
    ensures var top := TopTenMostComplex(records);
      && |top| == Ranking.Min(10, |records|)
      && Ranking.SortedDesc(top, TrianglesPerVolume)
      && multiset(top) <= multiset(records)
      && (forall x, i :: x in multiset(records) - multiset(top) && 0 <= i < |top|
            ==> TrianglesPerVolume(x) <= TrianglesPerVolume(top[i]))
  {
    Ranking.TopKSpec(records, 10, TrianglesPerVolume);
  }

  /** An entry of `topTenMostComplexObjects`: the zero-valued triangle count and volume
      are left out. */
  datatype ComplexEntry = ComplexEntry(
    typeName: string,
    naming: seq<Field>,
    numberOfTriangles: Option<int>,
    volumeM3: Option<real>,
    trianglesPerM3: real)

  function ComplexEntryOf(d: ObjectDetails): ComplexEntry {
    ComplexEntry(
      d.product.typeName,
      NameAndGuid(d.product.naming),
      if d.primitiveCount != 0 then Some(d.primitiveCount) else None,
      if d.volume != 0.0 then Some(d.volume) else None,
      TrianglesPerVolume(d))
  }

  /** An entry of `topTenMostProperties`: the property count is always present. */
  datatype PropertyEntry = PropertyEntry(typeName: string, naming: seq<Field>, numberOfProperties: int)

  function PropertyEntryOf(d: ObjectDetails): PropertyEntry {
    PropertyEntry(d.product.typeName, NameAndGuid(d.product.naming), d.nrOfProperties)
  }

  /** `numerator / denominator`, present only when the denominator is not zero. */
  function Ratio(numerator: real, denominator: real): (r: Option<real>)
    ensures r.Some? <==> denominator != 0.0
    ensures r.Some? ==> r.value * denominator == numerator
  {
    if denominator != 0.0 then Some(numerator / denominator) else None
  }

  /** The `completeModel` node. */
  datatype CompleteModel = CompleteModel(
    totalTriangles: int,
    totalSpaceM2: real,
    totalSpaceM3: real,
    totalNrOfObjects: int,
    totalNrOfProperties: int,
    totalNrOfPsets: int,
    totalNrOfRelations: int,
    averageNrOfObjectsPerM3: Option<real>,
    averageAmountOfTrianglesPerM3: Option<real>,
    averageNrOfPropertiesPerObject: Option<real>,
    averageAmountOfTrianglesPerM2: Option<real>)

  /** The totals as accumulated, and each average present exactly when its denominator
      is not zero, in which case it times the denominator gives the numerator. */
  function CompleteModelOf(t: Totals): (r: CompleteModel)
    ensures && r.totalTriangles == t.triangles && r.totalSpaceM2 == t.spaceM2 && r.totalSpaceM3 == t.spaceM3
            && r.totalNrOfObjects == t.objects && r.totalNrOfProperties == t.properties
            && r.totalNrOfPsets == t.psets && r.totalNrOfRelations == t.relations
    ensures r.averageNrOfObjectsPerM3.Some? <==> t.spaceM3 != 0.0
    ensures r.averageNrOfObjectsPerM3.Some? ==> r.averageNrOfObjectsPerM3.value * t.spaceM3 == t.objects as real
    ensures r.averageAmountOfTrianglesPerM3.Some? <==> t.spaceM3 != 0.0
    ensures r.averageAmountOfTrianglesPerM3.Some? ==> r.averageAmountOfTrianglesPerM3.value * t.spaceM3 == t.triangles as real
    ensures r.averageNrOfPropertiesPerObject.Some? <==> t.objects != 0
    ensures r.averageNrOfPropertiesPerObject.Some? ==>
      r.averageNrOfPropertiesPerObject.value * t.objects as real == t.properties as real
    ensures r.averageAmountOfTrianglesPerM2.Some? <==> t.spaceM2 != 0.0
    ensures r.averageAmountOfTrianglesPerM2.Some? ==> r.averageAmountOfTrianglesPerM2.value * t.spaceM2 == t.triangles as real
  {
    CompleteModel(
      t.triangles, t.spaceM2, t.spaceM3, t.objects, t.properties, t.psets, t.relations,
      Ratio(t.objects as real, t.spaceM3),
      Ratio(t.triangles as real, t.spaceM3),
      Ratio(t.properties as real, t.objects as real),
      Ratio(t.triangles as real, t.spaceM2))
  }

  /** The `aggregations` node. */
  datatype Aggregations = Aggregations(
    perType: map<string, TypeStats>,
    topTenMostComplexObjects: seq<ComplexEntry>,
    topTenMostProperties: seq<PropertyEntry>,
    completeModel: CompleteModel)

  /** One `topTenMostComplexObjects` entry per ranked record, in order. */
  function MapComplex(ds: seq<ObjectDetails>): (r: seq<ComplexEntry>)
    ensures |r| == |ds|
    ensures forall i :: 0 <= i < |ds| ==> r[i].typeName == ds[i].product.typeName
    ensures forall i :: 0 <= i < |ds| ==> r[i].naming == NameAndGuid(ds[i].product.naming)
    ensures forall i :: 0 <= i < |ds| ==> r[i].trianglesPerM3 == TrianglesPerVolume(ds[i])
    ensures forall i :: 0 <= i < |ds| ==>
      (r[i].numberOfTriangles.Some? <==> ds[i].primitiveCount != 0)
      && (r[i].numberOfTriangles.Some? ==> r[i].numberOfTriangles.value == ds[i].primitiveCount)
    ensures forall i :: 0 <= i < |ds| ==>
      (r[i].volumeM3.Some? <==> ds[i].volume != 0.0) && (r[i].volumeM3.Some? ==> r[i].volumeM3.value == ds[i].volume)
  {
    seq(|ds|, i requires 0 <= i < |ds| => ComplexEntryOf(ds[i]))
  }

  /** One `topTenMostProperties` entry per ranked record, in order. */
  function MapProperties(ds: seq<ObjectDetails>): (r: seq<PropertyEntry>)
    ensures |r| == |ds|
    ensures forall i :: 0 <= i < |ds| ==>
      r[i].typeName == ds[i].product.typeName && r[i].numberOfProperties == ds[i].nrOfProperties
    ensures forall i :: 0 <= i < |ds| ==> r[i].naming == NameAndGuid(ds[i].product.naming)
  {
    seq(|ds|, i requires 0 <= i < |ds| => PropertyEntryOf(ds[i]))
  }

  /** `processAggregations`: the report node and the instance's `cubesNearZero` after the pass. */
  function ProcessAggregations(types: seq<string>, products: seq<Product>, cubesNearZero: int): (r: (Aggregations, int))
    ensures var st := AggregateTypes(types, products, cubesNearZero);
      && r.0.perType == st.perType
      && r.0.completeModel == CompleteModelOf(st.totals)
      && r.1 == st.cubesNearZero
      && r.0.topTenMostComplexObjects == MapComplex(TopTenMostComplex(st.records))
      && r.0.topTenMostProperties == MapProperties(TopTenMostProperties(st.records))
      && |r.0.topTenMostComplexObjects| == Ranking.Min(10, |st.records|)
      && |r.0.topTenMostProperties| == Ranking.Min(10, |st.records|)
      && (forall i, j :: 0 <= i < j < |r.0.topTenMostComplexObjects| ==>
            r.0.topTenMostComplexObjects[i].trianglesPerM3 >= r.0.topTenMostComplexObjects[j].trianglesPerM3)
      && (forall i, j :: 0 <= i < j < |r.0.topTenMostProperties| ==>
            r.0.topTenMostProperties[i].numberOfProperties >= r.0.topTenMostProperties[j].numberOfProperties)
  {
    var st := AggregateTypes(types, products, cubesNearZero);
    TopTenMostComplexSpec(st.records);
    TopTenMostPropertiesSpec(st.records);
    (Aggregations(
       st.perType,
       MapComplex(TopTenMostComplex(st.records)),
       MapProperties(TopTenMostProperties(st.records)),
       CompleteModelOf(st.totals)),
     st.cubesNearZero)
  }

  /** With every concrete product type listed once, the `aggregations` node speaks about
      all the products: the `completeModel` totals are sums over them, the property
      average is present exactly when there is a product, each ranking lists
      min(10, n) of them, and the counter grows by the number of unit cubes near the
      origin. */
  lemma AggregationsReport(types: seq<string>, products: seq<Product>, cubesNearZero: int)
    requires Distinct(types)
    requires forall i :: 0 <= i < |products| ==> products[i].typeName in types
    ensures var r := ProcessAggregations(types, products, cubesNearZero);
      var cm := r.0.completeModel;
      && cm.totalNrOfObjects == |products|
      && cm.totalTriangles == Sum(products, Triangles)
      && cm.totalNrOfProperties == Sum(products, Properties)
      && cm.totalNrOfPsets == Sum(products, Psets)
      && cm.totalNrOfRelations == Sum(products, Relations)
      && cm.totalSpaceM2 == SumReal(OfType(products, "IfcSpace"), SpaceArea)
      && cm.totalSpaceM3 == SumReal(OfType(products, "IfcSpace"), SpaceVolume)
      && (cm.averageNrOfPropertiesPerObject.Some? <==> |products| > 0)
      && |r.0.topTenMostComplexObjects| == Ranking.Min(10, |products|)
      && |r.0.topTenMostProperties| == Ranking.Min(10, |products|)
      && r.1 == cubesNearZero + Sum(products, CubeIndicator)
  {
    var st := AggregateTypes(types, products, cubesNearZero);
    AggregationCoversModel(types, products, cubesNearZero);
    TotalObjectsIsSumOfPerType(types, products, cubesNearZero);
    assert |st.records| == |products|;
  }

  /** With every product type listed once, the records are exactly the records of the
      products: each product has its record among them, and each record is that of a
      product. */
  lemma RecordsOfProducts(types: seq<string>, products: seq<Product>)
    requires Distinct(types)
    requires forall i :: 0 <= i < |products| ==> products[i].typeName in types
    ensures var rs := Records(Grouped(types, products));
      && (forall p :: p in products ==> RecordOf(p) in rs)
      && (forall d :: d in rs ==> d.product in products && d == RecordOf(d.product))
  {
    var g := Grouped(types, products);
    var rs := Records(g);
    GroupedIsPermutation(types, products);
    forall p | p in products
      ensures RecordOf(p) in rs
    {
      assert p in multiset(g);
      var k :| 0 <= k < |g| && g[k] == p;
      assert rs[k] == RecordOf(p);
    }
    forall d | d in rs
      ensures d.product in products && d == RecordOf(d.product)
    {
      var k :| 0 <= k < |rs| && rs[k] == d;
      assert g[k] in multiset(g);
    }
  }

  /** The records are exactly the records of the products. */
  predicate RecordsOf(records: seq<ObjectDetails>, products: seq<Product>) {
    && (forall p :: p in products ==> RecordOf(p) in records)
    && (forall d :: d in records ==> d.product in products && d == RecordOf(d.product))
  }

  lemma MapComplexHas(ds: seq<ObjectDetails>, d: ObjectDetails)
    requires d in ds
    ensures ComplexEntryOf(d) in MapComplex(ds)
  {
  }

  lemma MapPropertiesHas(ds: seq<ObjectDetails>, d: ObjectDetails)
    requires d in ds
    ensures PropertyEntryOf(d) in MapProperties(ds)
  {
  }

  /** Each `topTenMostComplexObjects` entry shows a product's record. */
  lemma ComplexEntriesShowProducts(records: seq<ObjectDetails>, products: seq<Product>)
    requires RecordsOf(records, products)
    ensures var cx := MapComplex(TopTenMostComplex(records));
      forall i :: 0 <= i < |cx| ==> exists p :: p in products && cx[i] == ComplexEntryOf(RecordOf(p))
  {
    var top := TopTenMostComplex(records);
    TopTenMostComplexSpec(records);
    var cx := MapComplex(top);
    forall i | 0 <= i < |cx|
      ensures exists p :: p in products && cx[i] == ComplexEntryOf(RecordOf(p))
    {
      assert top[i] in multiset(records);
      assert cx[i] == ComplexEntryOf(RecordOf(top[i].product));
    }
  }

  /** A product whose entry is not in `topTenMostComplexObjects` is no denser than any
      listed entry. */
  lemma ComplexRankingLeavesNoDenser(records: seq<ObjectDetails>, products: seq<Product>, p: Product)
    requires RecordsOf(records, products)
    requires p in products && ComplexEntryOf(RecordOf(p)) !in MapComplex(TopTenMostComplex(records))
    ensures var cx := MapComplex(TopTenMostComplex(records));
      forall i :: 0 <= i < |cx| ==> TrianglesPerVolume(RecordOf(p)) <= cx[i].trianglesPerM3
  {
    var top := TopTenMostComplex(records);
    var d := RecordOf(p);
    if d in top {
      MapComplexHas(top, d);
    }
    TopTenMostComplexSpec(records);
    assert d in multiset(records) - multiset(top);
  }

  /** Each `topTenMostProperties` entry shows a product's record. */
  lemma PropertyEntriesShowProducts(records: seq<ObjectDetails>, products: seq<Product>)
    requires RecordsOf(records, products)
    ensures var pr := MapProperties(TopTenMostProperties(records));
      forall i :: 0 <= i < |pr| ==> exists p :: p in products && pr[i] == PropertyEntryOf(RecordOf(p))
  {
    var top := TopTenMostProperties(records);
    TopTenMostPropertiesSpec(records);
    var pr := MapProperties(top);
    forall i | 0 <= i < |pr|
      ensures exists p :: p in products && pr[i] == PropertyEntryOf(RecordOf(p))
    {
      assert top[i] in multiset(records);
      assert pr[i] == PropertyEntryOf(RecordOf(top[i].product));
    }
  }

  /** A product whose entry is not in `topTenMostProperties` has no more properties
      than any listed entry. */
  lemma PropertyRankingLeavesNoMore(records: seq<ObjectDetails>, products: seq<Product>, p: Product)
    requires RecordsOf(records, products)
    requires p in products && PropertyEntryOf(RecordOf(p)) !in MapProperties(TopTenMostProperties(records))
    ensures var pr := MapProperties(TopTenMostProperties(records));
      forall i :: 0 <= i < |pr| ==> p.nrOfProperties <= pr[i].numberOfProperties
  {
    var top := TopTenMostProperties(records);
    var d := RecordOf(p);
    if d in top {
      MapPropertiesHas(top, d);
    }
    TopTenMostPropertiesSpec(records);
    assert d in multiset(records) - multiset(top);
  }

  /** Every entry of the ranking `cx` shows the record of one of the products, and a
      product whose entry is not listed is no denser than any listed entry. */
  predicate RanksComplex(cx: seq<ComplexEntry>, products: seq<Product>) {
    && (forall i :: 0 <= i < |cx| ==> exists p :: p in products && cx[i] == ComplexEntryOf(RecordOf(p)))
    && (forall p, i :: p in products && ComplexEntryOf(RecordOf(p)) !in cx && 0 <= i < |cx| ==>
          TrianglesPerVolume(RecordOf(p)) <= cx[i].trianglesPerM3)
  }

  /** Every entry of the ranking `pr` shows the record of one of the products, and a
      product whose entry is not listed has no more properties than any listed entry. */
  predicate RanksProperties(pr: seq<PropertyEntry>, products: seq<Product>) {
    && (forall i :: 0 <= i < |pr| ==> exists p :: p in products && pr[i] == PropertyEntryOf(RecordOf(p)))
    && (forall p, i :: p in products && PropertyEntryOf(RecordOf(p)) !in pr && 0 <= i < |pr| ==>
          p.nrOfProperties <= pr[i].numberOfProperties)
  }

  lemma ComplexRanking(records: seq<ObjectDetails>, products: seq<Product>)
    requires RecordsOf(records, products)
    ensures RanksComplex(MapComplex(TopTenMostComplex(records)), products)
  {
    var cx := MapComplex(TopTenMostComplex(records));
    ComplexEntriesShowProducts(records, products);
    forall p | p in products && ComplexEntryOf(RecordOf(p)) !in cx
      ensures forall i :: 0 <= i < |cx| ==> TrianglesPerVolume(RecordOf(p)) <= cx[i].trianglesPerM3
    {
      ComplexRankingLeavesNoDenser(records, products, p);
    }
  }

  lemma PropertyRanking(records: seq<ObjectDetails>, products: seq<Product>)
    requires RecordsOf(records, products)
    ensures RanksProperties(MapProperties(TopTenMostProperties(records)), products)
  {
    var pr := MapProperties(TopTenMostProperties(records));
    PropertyEntriesShowProducts(records, products);
    forall p | p in products && PropertyEntryOf(RecordOf(p)) !in pr
      ensures forall i :: 0 <= i < |pr| ==> p.nrOfProperties <= pr[i].numberOfProperties
    {
      PropertyRankingLeavesNoMore(records, products, p);
    }
  }

  /** With every product type listed once, each ranking of the `aggregations` node lists
      records of the products, and no product left out ranks higher than a listed one. */
  lemma RankingsReport(types: seq<string>, products: seq<Product>, cubesNearZero: int)
    requires Distinct(types)
    requires forall i :: 0 <= i < |products| ==> products[i].typeName in types
    ensures var r := ProcessAggregations(types, products, cubesNearZero).0;
      RanksComplex(r.topTenMostComplexObjects, products) && RanksProperties(r.topTenMostProperties, products)
  {
    var records := AggregateTypes(types, products, cubesNearZero).records;
    RecordsOfProducts(types, products);
    assert RecordsOf(records, products);
    ComplexRanking(records, products);
    PropertyRanking(records, products);
  }
}
