/** `runBimBot`: the report the service builds for one model, section by section, and
    the `cubesNearZero` counter the service instance keeps between runs. */
module Analytics {
  import opened Wrappers
  import opened Seqs
  import opened IfcModel
  import opened Spatial
  import opened Materials
  import opened Classification
  import opened ClassificationOutput
  import opened ClassificationReport
  import opened Aggregation

  /** The service instance: the only state it keeps is the cube counter, which is
      never reset. */
  datatype Service = Service(cubesNearZero: int)

  /** The IFC header of a model, reduced to what can make the header pass throw: its
      time stamp, which the pass dereferences. */
  datatype IfcHeader = IfcHeader(timeStamp: Option<int>)

  /** The header pass dereferences the header and its time stamp without a null check. */
  predicate HeaderReadable(m: Model) {
    m.header.Some? && m.header.value.timeStamp.Some?
  }

  /** The parts of a loaded model the report reads. `productTypes` lists the concrete
      subtypes of IfcProduct the service enumerates. */
  datatype Model = Model(
    header: Option<IfcHeader>,
    project: Option<Project>,
    materials: seq<Material>,
    materialAssociations: seq<MaterialAssociation>,
    classifications: seq<IfcClassification>,
    references: seq<IfcClassificationReference>,
    classificationAssociations: seq<ClassificationAssociation>,
    productTypes: seq<string>,
    products: seq<Product>)

  /** Every reference in the model leads to an object of the model, and oids are unique
      where the classification pass looks them up. */
  predicate Loaded(m: Model) {
    && Materials.TargetsDeclared(m.materials, m.materialAssociations)
    && WellFormed(m.classifications, m.references, m.classificationAssociations)
  }

  /** The type list names every product's type once. */
  predicate TypesCoverProducts(m: Model) {
    && Distinct(m.productTypes)
    && forall i :: 0 <= i < |m.products| ==> m.products[i].typeName in m.productTypes
  }

  /** The `checks` node without the clash report. */
  datatype Checks = Checks(hasCubeNearZero: bool)

  datatype AnalyticsReport = AnalyticsReport(
    project: Option<ProjectNode>,
    materials: seq<MaterialEntry>,
    classifications: seq<ClassificationEntry>,
    aggregations: Aggregations,
    checks: Checks)

  function ProductOids(ps: seq<Product>): (oids: seq<Oid>)
    ensures |oids| == |ps| && forall i :: 0 <= i < |ps| ==> oids[i] == ps[i].oid
  {
    seq(|ps|, i requires 0 <= i < |ps| => ps[i].oid)
  }

  /** `processChecks` without clash detection: the flag reads the counter as it stands
      after the aggregation pass. */
  function ProcessChecks(cubesNearZero: int): Checks {
    Checks(cubesNearZero == 1)
  }

  /** No layer-set usage in the model has a layer without a material. */
  predicate LayersSet(m: Model) {
    forall i :: 0 <= i < |m.materialAssociations| ==> !HasUnsetLayer(m.materialAssociations[i])
  }

  /** One run of the service: the header, then the sections in the order the service
      builds them. The header pass throws on a missing header or time stamp, the
      project walk can throw, and so can the materials pass, which dereferences the
      material of every layer of a layer-set usage; then no later section runs and the
      counter is left as it was. */
  function RunBimBot(svc: Service, m: Model): (out: (Result<AnalyticsReport, JavaException>, Service))
    requires Loaded(m)
    ensures out.0.Failure? <==> !HeaderReadable(m) || ProcessProject(m.project).Failure? || !LayersSet(m)
    ensures out.0.Failure? && (!HeaderReadable(m) || ProcessProject(m.project).Success?) ==>
      out.0.error == NullPointerException
    ensures out.0.Failure? ==> out.1 == svc
    ensures out.0.Success? ==>
      && out.0.value.project == ProcessProject(m.project).value
      && out.0.value.materials == ProcessMaterials(m.materials, m.materialAssociations, ProductOids(m.products))
      && out.0.value.classifications
         == ProcessClassification(m.classifications, m.references, m.classificationAssociations, ProductOids(m.products))
      && out.0.value.aggregations == ProcessAggregations(m.productTypes, m.products, svc.cubesNearZero).0
      && out.1.cubesNearZero == AggregateTypes(m.productTypes, m.products, svc.cubesNearZero).cubesNearZero
      && out.0.value.checks.hasCubeNearZero == (out.1.cubesNearZero == 1)
  {
    if !HeaderReadable(m) then (Failure(NullPointerException), svc)
    else
    match ProcessProject(m.project)
    case Failure(e) => (Failure(e), svc)
    case Success(project) =>
      var oids := ProductOids(m.products);
      match ProcessMaterialsAsWritten(m.materials, m.materialAssociations, oids)
      case Failure(e) => (Failure(e), svc)
      case Success(materials) =>
        var classifications := ProcessClassification(m.classifications, m.references, m.classificationAssociations, oids);
        var (aggregations, cubes) := ProcessAggregations(m.productTypes, m.products, svc.cubesNearZero);
        (Success(AnalyticsReport(project, materials, classifications, aggregations, ProcessChecks(cubes))),
         Service(cubes))
  }

  /** After a successful run the counter has grown by the number of products whose
      geometry is a unit cube near the origin. */
  lemma RunCountsCubes(svc: Service, m: Model)
    requires Loaded(m) && TypesCoverProducts(m)
    ensures var out := RunBimBot(svc, m);
      out.0.Success? ==>
        && out.1.cubesNearZero == svc.cubesNearZero + Sum(m.products, CubeIndicator)
        && (out.0.value.checks.hasCubeNearZero <==> svc.cubesNearZero + Sum(m.products, CubeIndicator) == 1)
  {
    var out := RunBimBot(svc, m);
    AggregationCoversModel(m.productTypes, m.products, svc.cubesNearZero);
  }

  /** On a fresh instance the flag says that exactly one product is a unit cube near
      the origin. */
  lemma FreshServiceFlagsOneCube(m: Model)
    requires Loaded(m) && TypesCoverProducts(m)
    ensures var out := RunBimBot(Service(0), m);
      out.0.Success? ==> (out.0.value.checks.hasCubeNearZero <==> Sum(m.products, CubeIndicator) == 1)
  {
    RunCountsCubes(Service(0), m);
  }

  /** Because the counter is never reset, running the same model twice on one instance
      gives two different answers: a model with exactly one cube near the origin is
      flagged the first time and not the second. */
  lemma SecondRunClearsFlag(m: Model)
    requires Loaded(m) && TypesCoverProducts(m)
    requires Sum(m.products, CubeIndicator) == 1
    requires HeaderReadable(m) && ProcessProject(m.project).Success? && LayersSet(m)
    ensures var first := RunBimBot(Service(0), m);
      var second := RunBimBot(first.1, m);
      && first.0.Success? && first.0.value.checks.hasCubeNearZero
      && second.0.Success? && !second.0.value.checks.hasCubeNearZero
  {
    var first := RunBimBot(Service(0), m);
    RunCountsCubes(Service(0), m);
    RunCountsCubes(first.1, m);
  }
}
