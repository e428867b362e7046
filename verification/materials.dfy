/** `processMaterials`: one entry per material with the number of products associated
    with it, then NO_MATERIAL with the number of products no material association
    names. A direct material association adds its objects to that material; a layer-set
    usage adds them to the material of every layer, once per layer; any other material
    select adds nothing to any material but still marks its objects as having one. */
module Materials {
  import opened Wrappers
  import opened Seqs
  import opened IfcModel

  /** An IfcMaterial: its oid and its name. A material has no GlobalId, so
      `putNameAndGuid` writes at most its name. */
  datatype Material = Material(oid: Oid, name: Option<string>)

  /** What `putNameAndGuid` reads of a material. */
  function MaterialNaming(m: Material): Label {
    Label(m.name, None)
  }

  /** The relating material of an association. A layer-set usage lists the material of
      each layer of its layer set, `None` for a layer without one (the attribute is
      optional in IFC). */
  datatype MaterialSelect =
    | DirectMaterial(material: Oid)
    | LayerSetUsage(layers: seq<Option<Oid>>)
    | OtherMaterialSelect

  /** An IfcRelAssociatesMaterial. */
  datatype MaterialAssociation = MaterialAssociation(relatedObjects: seq<Oid>, relatingMaterial: MaterialSelect)

  /** A material entry of the report: the node's name and guid fields and its count. */
  datatype MaterialEntry = MaterialEntry(fields: seq<Field>, nrOfProducts: int)

  function MaterialOids(ms: seq<Material>): set<Oid> {
    set i | 0 <= i < |ms| :: ms[i].oid
  }

  /** No later material has the oid of material `i`. */
  predicate IsLast(ms: seq<Material>, i: nat)
    requires i < |ms|
  {
    forall j :: i < j < |ms| ==> ms[j].oid != ms[i].oid
  }

  /** The `materialNodes` map of the first loop: each oid leads to the node of the last
      material with that oid, as `HashMap.put` keeps the last value. */
  function MaterialIndex(ms: seq<Material>): (idx: map<Oid, nat>)
    ensures idx.Keys == MaterialOids(ms)
    ensures forall o :: o in idx ==> idx[o] < |ms| && ms[idx[o]].oid == o && IsLast(ms, idx[o])
    decreases |ms|
  {
    if |ms| == 0 then map[]
    else
      var pre := ms[..|ms| - 1];
      assert forall i :: 0 <= i < |pre| ==> pre[i] == ms[i];
      assert MaterialOids(ms) == MaterialOids(pre) + {ms[|ms| - 1].oid};
      MaterialIndex(pre)[ms[|ms| - 1].oid := |ms| - 1]
  }

  /** The materials of the layers that have one, in layer order. */
  function LayerMaterials(layers: seq<Option<Oid>>): (r: seq<Oid>)
    ensures forall o :: Occurrences(o, r) == Occurrences(Some(o), layers)
    decreases |layers|
  {
    if |layers| == 0 then []
    else
      var pre := LayerMaterials(layers[..|layers| - 1]);
      var r := match layers[|layers| - 1] case Some(m) => pre + [m] case None => pre;
      forall o ensures Occurrences(o, r) == Occurrences(Some(o), layers) {
        if layers[|layers| - 1].Some? {
          OccurrencesAppend(o, pre, [layers[|layers| - 1].value]);
        }
      }
      r
  }

  /** The materials an association adds its objects to, once per occurrence. */
  function Targets(sel: MaterialSelect): seq<Oid> {
    match sel
    case DirectMaterial(m) => [m]
    case LayerSetUsage(layers) => LayerMaterials(layers)
    case OtherMaterialSelect => []
  }

  /** Every material an association adds to is a material of the model. */
  predicate TargetsDeclared(ms: seq<Material>, assocs: seq<MaterialAssociation>) {
    forall i, o :: 0 <= i < |assocs| && o in Targets(assocs[i].relatingMaterial) ==> o in MaterialOids(ms)
  }

  /** The reference count: the objects of all associations, each counted once for
      every time material `o` occurs among the association's targets. */
  function Tally(o: Oid, assocs: seq<MaterialAssociation>): nat
    decreases |assocs|
  {
    if |assocs| == 0 then 0
    else
      var a := assocs[|assocs| - 1];
      Tally(o, assocs[..|assocs| - 1]) + |a.relatedObjects| * Occurrences(o, Targets(a.relatingMaterial))
  }

  /** How many targets in `ts` lead to node `n`. */
  function Hits(idx: map<Oid, nat>, n: nat, ts: seq<Oid>): nat
    decreases |ts|
  {
    if |ts| == 0 then 0
    else Hits(idx, n, ts[..|ts| - 1]) + (if ts[|ts| - 1] in idx && idx[ts[|ts| - 1]] == n then 1 else 0)
  }

  lemma MulSucc(k: nat, n: nat)
    ensures k * (n + 1) == k * n + k
  {}

  /** The inner loop over one association's targets: each adds `k` to its node. */
  function AddToTargets(counts: seq<int>, idx: map<Oid, nat>, ts: seq<Oid>, k: nat): (r: seq<int>)
    requires forall t :: t in ts ==> t in idx && idx[t] < |counts|
    ensures |r| == |counts|
    ensures forall n :: 0 <= n < |counts| ==> r[n] == counts[n] + k * Hits(idx, n, ts)
    decreases |ts|
  {
    if |ts| == 0 then counts
    else
      var t := ts[|ts| - 1];
      var pre := AddToTargets(counts, idx, ts[..|ts| - 1], k);
      var r := pre[idx[t] := pre[idx[t]] + k];
      forall n | 0 <= n < |counts| ensures r[n] == counts[n] + k * Hits(idx, n, ts) {
        MulSucc(k, Hits(idx, n, ts[..|ts| - 1]));
      }
      r
  }

  /** The counters of the second loop, node by node. */
  function CountMaterials(idx: map<Oid, nat>, size: nat, assocs: seq<MaterialAssociation>): (counts: seq<int>)
    requires forall o :: o in idx ==> idx[o] < size
    requires forall i, o :: 0 <= i < |assocs| && o in Targets(assocs[i].relatingMaterial) ==> o in idx
    ensures |counts| == size
    decreases |assocs|
  {
    if |assocs| == 0 then seq(size, _ => 0)
    else
      var a := assocs[|assocs| - 1];
      assert forall o :: o in Targets(a.relatingMaterial) ==> o in idx;
      AddToTargets(CountMaterials(idx, size, assocs[..|assocs| - 1]), idx, Targets(a.relatingMaterial), |a.relatedObjects|)
  }

  /** The objects the second loop marks as having a material: those related by any
      association, whatever its relating material. */
  function WithMaterial(assocs: seq<MaterialAssociation>): (s: set<Oid>)
    ensures forall o :: o in s <==> exists i :: 0 <= i < |assocs| && o in assocs[i].relatedObjects
    decreases |assocs|
  {
    if |assocs| == 0 then {}
    else
      var pre := assocs[..|assocs| - 1];
      assert forall i :: 0 <= i < |pre| ==> pre[i] == assocs[i];
      var rel := assocs[|assocs| - 1].relatedObjects;
      WithMaterial(pre) + set j | 0 <= j < |rel| :: rel[j]
  }

  /** The report: every material in model order with its counter, then NO_MATERIAL
      with the products (with repetitions) not marked as having a material. */
  function ProcessMaterials(ms: seq<Material>, assocs: seq<MaterialAssociation>, products: seq<Oid>): (r: seq<MaterialEntry>)
    requires TargetsDeclared(ms, assocs)
    ensures |r| == |ms| + 1
    ensures forall i :: 0 <= i < |ms| ==> r[i].fields == NameAndGuid(MaterialNaming(ms[i]))
    ensures forall i :: 0 <= i < |ms| ==>
      !HasKey(r[i].fields, "guid") && (HasKey(r[i].fields, "name") <==> ms[i].name.Some?)
    ensures r[|ms|] == MaterialEntry([Field("name", "NO_MATERIAL")], CountMissing(products, WithMaterial(assocs)))
  {
    var counts := CountMaterials(MaterialIndex(ms), |ms|, assocs);
    seq(|ms|, i requires 0 <= i < |ms| => MaterialEntry(NameAndGuid(MaterialNaming(ms[i])), counts[i]))
    + [MaterialEntry([Field("name", "NO_MATERIAL")], CountMissing(products, WithMaterial(assocs)))]
  }

  // ---------------------------------------------------------------------------
  // The counters against the reference count

  /** With the index of the model, the targets leading to node `idx[o]` are exactly
      the occurrences of `o`. */
  lemma {:induction false} HitsAreOccurrences(ms: seq<Material>, o: Oid, ts: seq<Oid>)
    requires o in MaterialOids(ms)
    requires forall t :: t in ts ==> t in MaterialOids(ms)
    ensures Hits(MaterialIndex(ms), MaterialIndex(ms)[o], ts) == Occurrences(o, ts)
    decreases |ts|
  {
    if |ts| > 0 {
      var idx := MaterialIndex(ms);
      var pre := ts[..|ts| - 1];
      var t := ts[|ts| - 1];
      assert forall x :: x in pre ==> x in ts;
      HitsAreOccurrences(ms, o, pre);
      Snoc(ts);
      OccurrencesAppend(o, pre, [t]);
      assert t in idx;
      assert idx[t] == idx[o] ==> t == ms[idx[t]].oid == o;
    }
  }

  /** A node that is not the last with its oid is the target of nothing. */
  lemma {:induction false} NoHitsOnShadowed(ms: seq<Material>, i: nat, ts: seq<Oid>)
    requires i < |ms| && !IsLast(ms, i)
    ensures Hits(MaterialIndex(ms), i, ts) == 0
    decreases |ts|
  {
    if |ts| > 0 {
      NoHitsOnShadowed(ms, i, ts[..|ts| - 1]);
    }
  }

  /** Node `idx[o]` ends with the reference count of `o`. */
  lemma {:induction false} CountsAreTallies(ms: seq<Material>, assocs: seq<MaterialAssociation>, o: Oid)
    requires TargetsDeclared(ms, assocs)
    requires o in MaterialOids(ms)
    ensures CountMaterials(MaterialIndex(ms), |ms|, assocs)[MaterialIndex(ms)[o]] == Tally(o, assocs)
    decreases |assocs|
  {
    if |assocs| > 0 {
      var pre := assocs[..|assocs| - 1];
      var a := assocs[|assocs| - 1];
      assert forall i :: 0 <= i < |pre| ==> pre[i] == assocs[i];
      CountsAreTallies(ms, pre, o);
      var ts := Targets(a.relatingMaterial);
      assert forall t :: t in ts ==> t in MaterialOids(ms);
      HitsAreOccurrences(ms, o, ts);
    }
  }

  /** A node that is not the last with its oid stays at zero. */
  lemma {:induction false} ShadowedStaysZero(ms: seq<Material>, assocs: seq<MaterialAssociation>, i: nat)
    requires TargetsDeclared(ms, assocs)
    requires i < |ms| && !IsLast(ms, i)
    ensures CountMaterials(MaterialIndex(ms), |ms|, assocs)[i] == 0
    decreases |assocs|
  {
    if |assocs| > 0 {
      var pre := assocs[..|assocs| - 1];
      var a := assocs[|assocs| - 1];
      assert forall j :: 0 <= j < |pre| ==> pre[j] == assocs[j];
      ShadowedStaysZero(ms, pre, i);
      NoHitsOnShadowed(ms, i, Targets(a.relatingMaterial));
    }
  }

  /** The count of every material entry: the reference count of its material when it
      is the last material with its oid, zero otherwise. */
  lemma MaterialEntryCount(ms: seq<Material>, assocs: seq<MaterialAssociation>, products: seq<Oid>, i: nat)
    requires TargetsDeclared(ms, assocs)
    requires i < |ms|
    ensures ProcessMaterials(ms, assocs, products)[i].nrOfProducts
      == if IsLast(ms, i) then Tally(ms[i].oid, assocs) else 0
  {
    var idx := MaterialIndex(ms);
    assert ms[i].oid in MaterialOids(ms);
    if IsLast(ms, i) {
      CountsAreTallies(ms, assocs, ms[i].oid);
      assert idx[ms[i].oid] == i;
    } else {
      ShadowedStaysZero(ms, assocs, i);
    }
  }

  /** The links of the associations: each object once per target. */
  function Links(assocs: seq<MaterialAssociation>): nat
    decreases |assocs|
  {
    if |assocs| == 0 then 0
    else
      var a := assocs[|assocs| - 1];
      Links(assocs[..|assocs| - 1]) + |a.relatedObjects| * |Targets(a.relatingMaterial)|
  }

  lemma {:induction false} AddToTargetsTotal(counts: seq<int>, idx: map<Oid, nat>, ts: seq<Oid>, k: nat)
    requires forall t :: t in ts ==> t in idx && idx[t] < |counts|
    ensures SumInts(AddToTargets(counts, idx, ts, k)) == SumInts(counts) + k * |ts|
    decreases |ts|
  {
    if |ts| > 0 {
      var pre := ts[..|ts| - 1];
      var t := ts[|ts| - 1];
      assert t in ts && forall x :: x in pre ==> x in ts;
      AddToTargetsTotal(counts, idx, pre, k);
      var p := AddToTargets(counts, idx, pre, k);
      assert AddToTargets(counts, idx, ts, k) == p[idx[t] := p[idx[t]] + k];
      SumIntsUpdate(p, idx[t], k);
      assert SumInts(AddToTargets(counts, idx, ts, k)) == SumInts(p) + k;
      MulSucc(k, |pre|);
    }
  }

  /** Summed over all nodes, the counters hold every link of every association. */
  lemma {:induction false} CountsTotal(ms: seq<Material>, assocs: seq<MaterialAssociation>)
    requires TargetsDeclared(ms, assocs)
    ensures SumInts(CountMaterials(MaterialIndex(ms), |ms|, assocs)) == Links(assocs)
    decreases |assocs|
  {
    if |assocs| == 0 {
      SumIntsZeros(|ms|);
    } else {
      var pre := assocs[..|assocs| - 1];
      var a := assocs[|assocs| - 1];
      assert forall i :: 0 <= i < |pre| ==> pre[i] == assocs[i];
      CountsTotal(ms, pre);
      var idx := MaterialIndex(ms);
      var ts := Targets(a.relatingMaterial);
      assert forall t :: t in ts ==> t in idx;
      AddToTargetsTotal(CountMaterials(idx, |ms|, pre), idx, ts, |a.relatedObjects|);
    }
  }

  /** An association whose relating material is neither a material nor a layer-set
      usage changes no counter, yet marks its objects as having a material. */
  lemma OtherSelectOnlyMarks(ms: seq<Material>, assocs: seq<MaterialAssociation>, rel: seq<Oid>, products: seq<Oid>)
    requires TargetsDeclared(ms, assocs)
    ensures TargetsDeclared(ms, assocs + [MaterialAssociation(rel, OtherMaterialSelect)])
    ensures var r := ProcessMaterials(ms, assocs + [MaterialAssociation(rel, OtherMaterialSelect)], products);
      var r0 := ProcessMaterials(ms, assocs, products);
      (forall i :: 0 <= i < |ms| ==> r[i] == r0[i])
      && r[|ms|].nrOfProducts == CountMissing(products, WithMaterial(assocs) + set j | 0 <= j < |rel| :: rel[j])
  {
    var b := assocs + [MaterialAssociation(rel, OtherMaterialSelect)];
    assert b[..|b| - 1] == assocs;
    assert forall i :: 0 <= i < |assocs| ==> b[i] == assocs[i];
    var idx := MaterialIndex(ms);
    assert CountMaterials(idx, |ms|, b) == CountMaterials(idx, |ms|, assocs);
    assert WithMaterial(b) == WithMaterial(assocs) + set j | 0 <= j < |rel| :: rel[j];
  }


  /** A product that no association relates adds one to NO_MATERIAL and changes no
      material's count. */
  lemma UnassociatedProductCountsOnce(ms: seq<Material>, assocs: seq<MaterialAssociation>, products: seq<Oid>, o: Oid)
    requires TargetsDeclared(ms, assocs)
    requires forall i :: 0 <= i < |assocs| ==> o !in assocs[i].relatedObjects
    ensures var r := ProcessMaterials(ms, assocs, products + [o]);
      var r0 := ProcessMaterials(ms, assocs, products);
      && (forall i :: 0 <= i < |ms| ==> r[i] == r0[i])
      && r[|ms|].nrOfProducts == r0[|ms|].nrOfProducts + 1
  {
    CountMissingSnoc(products, o, WithMaterial(assocs));
    forall i | 0 <= i < |ms|
      ensures ProcessMaterials(ms, assocs, products + [o])[i] == ProcessMaterials(ms, assocs, products)[i]
    {
      MaterialEntryCount(ms, assocs, products + [o], i);
      MaterialEntryCount(ms, assocs, products, i);
    }
  }
  /** A layer set naming the same material on two layers adds the association's objects
      to it twice. */
  lemma RepeatedLayerCountsTwice(m: Oid, rel: seq<Oid>)
    ensures Tally(m, [MaterialAssociation(rel, LayerSetUsage([Some(m), Some(m)]))]) == 2 * |rel|
  {
    var layers := [Some(m), Some(m)];
    var a := [MaterialAssociation(rel, LayerSetUsage(layers))];
    assert a[..0] == [];
    assert Occurrences(Some(m), layers) == 2 by {
      assert layers[..1] == [Some(m)];
      assert layers[..1][..0] == [];
    }
  }

  // ---------------------------------------------------------------------------
  // The loop as written: an unset layer material is dereferenced

  /** A layer of the association's layer set has no material. */
  predicate HasUnsetLayer(a: MaterialAssociation) {
    a.relatingMaterial.LayerSetUsage? && None in a.relatingMaterial.layers
  }

  /** With every layer set, the layer materials are the layers' materials. */
  lemma {:induction false} LayerMaterialsAllSet(layers: seq<Option<Oid>>)
    requires None !in layers
    ensures LayerMaterials(layers) == seq(|layers|, i requires 0 <= i < |layers| => layers[i].value)
    decreases |layers|
  {
    if |layers| > 0 {
      var pre := layers[..|layers| - 1];
      assert None !in pre by { assert forall x :: x in pre ==> x in layers; }
      LayerMaterialsAllSet(pre);
    }
  }

  /** The targets as the source computes them: it calls `getOid()` on each layer's
      material, so a layer without one throws. */
  function TargetsAsWritten(sel: MaterialSelect): (r: Result<seq<Oid>, JavaException>)
    ensures r.Success? <==> !(sel.LayerSetUsage? && None in sel.layers)
    ensures r.Success? ==> r.value == Targets(sel)
    ensures r.Failure? ==> r.error == NullPointerException
  {
    match sel
    case DirectMaterial(m) => Success([m])
    case LayerSetUsage(layers) =>
      if None in layers then Failure(NullPointerException)
      else
        LayerMaterialsAllSet(layers);
        Success(seq(|layers|, i requires 0 <= i < |layers| => layers[i].value))
    case OtherMaterialSelect => Success([])
  }

  /** The second loop as written: the first association with an unset layer aborts the
      whole service; without one it computes the corrected counters. */
  function CountMaterialsAsWritten(idx: map<Oid, nat>, size: nat, assocs: seq<MaterialAssociation>): (r: Result<seq<int>, JavaException>)
    requires forall o :: o in idx ==> idx[o] < size
    requires forall i, o :: 0 <= i < |assocs| && o in Targets(assocs[i].relatingMaterial) ==> o in idx
    ensures r.Success? <==> forall i :: 0 <= i < |assocs| ==> !HasUnsetLayer(assocs[i])
    ensures r.Success? ==> r.value == CountMaterials(idx, size, assocs)
    ensures r.Failure? ==> r.error == NullPointerException
    decreases |assocs|
  {
    if |assocs| == 0 then Success(seq(size, _ => 0))
    else
      var pre := assocs[..|assocs| - 1];
      var a := assocs[|assocs| - 1];
      assert forall i :: 0 <= i < |pre| ==> pre[i] == assocs[i];
      match CountMaterialsAsWritten(idx, size, pre)
      case Failure(e) => Failure(e)
      case Success(counts) =>
        match TargetsAsWritten(a.relatingMaterial)
        case Failure(e) => Failure(e)
        case Success(ts) =>
          assert forall t :: t in ts ==> t in idx;
          Success(AddToTargets(counts, idx, ts, |a.relatedObjects|))
  }

  /** `processMaterials` as written: it throws exactly when some layer-set usage has a
      layer without a material, and otherwise reports what the corrected model does. */
  function ProcessMaterialsAsWritten(ms: seq<Material>, assocs: seq<MaterialAssociation>, products: seq<Oid>): (r: Result<seq<MaterialEntry>, JavaException>)
    requires TargetsDeclared(ms, assocs)
    ensures r.Success? <==> forall i :: 0 <= i < |assocs| ==> !HasUnsetLayer(assocs[i])
    ensures r.Success? ==> r.value == ProcessMaterials(ms, assocs, products)
    ensures r.Failure? ==> r.error == NullPointerException
  {
    match CountMaterialsAsWritten(MaterialIndex(ms), |ms|, assocs)
    case Failure(e) => Failure(e)
    case Success(counts) =>
      Success(seq(|ms|, i requires 0 <= i < |ms| => MaterialEntry(NameAndGuid(MaterialNaming(ms[i])), counts[i]))
        + [MaterialEntry([Field("name", "NO_MATERIAL")], CountMissing(products, WithMaterial(assocs)))])
  }

  /** A wall whose layer set has one layer without a material: the source throws where
      the corrected model counts the wall once for the material of the other layer. */
  lemma UnsetLayerThrows(m: Material, wall: Oid)
    ensures var assocs := [MaterialAssociation([wall], LayerSetUsage([Some(m.oid), None]))];
      TargetsDeclared([m], assocs)
      && ProcessMaterialsAsWritten([m], assocs, [wall]).Failure?
      && ProcessMaterials([m], assocs, [wall])[0].nrOfProducts == 1
  {
    var assocs := [MaterialAssociation([wall], LayerSetUsage([Some(m.oid), None]))];
    assert HasUnsetLayer(assocs[0]);
    assert [m][0].oid == m.oid;
    var layers := [Some(m.oid), None];
    assert Occurrences(Some(m.oid), layers) == 1 by {
      assert layers[..1] == [Some(m.oid)];
      assert layers[..1][..0] == [];
    }
    assert forall o :: o in Targets(assocs[0].relatingMaterial) ==> o == m.oid by {
      forall o | o in Targets(assocs[0].relatingMaterial) ensures o == m.oid {
        assert Occurrences(o, Targets(assocs[0].relatingMaterial)) > 0;
      }
    }
    MaterialEntryCount([m], assocs, [wall], 0);
    assert assocs[..0] == [];
  }
}
