/** `processProject`, `processSite` and `processBuilding`: the spatial tree of the
    report. The walker follows each object's decomposition relations in order and keeps
    only buildings under a site, storeys under a building, spaces under a storey and
    zone assignments under a space. */
module Spatial {
  import opened Wrappers
  import opened IfcModel

  // ---------------------------------------------------------------------------
  // Walking the decomposition relations

  /** The related objects of a list of decomposition relations, relation by relation,
      as the nested loops visit them. */
  function Flatten<T>(rels: seq<seq<T>>): (r: seq<T>)
    ensures forall i, j :: 0 <= i < |rels| && 0 <= j < |rels[i]| ==> rels[i][j] in r
    ensures forall x :: x in r ==> exists i :: 0 <= i < |rels| && x in rels[i]
    decreases |rels|
  {
    if |rels| == 0 then []
    else
      var pre := rels[..|rels| - 1];
      var r := Flatten(pre) + rels[|rels| - 1];
      assert forall i :: 0 <= i < |pre| ==> pre[i] == rels[i];
      r
  }

  /** The images of the elements `f` selects, in order: a loop with an `instanceof`
      test that adds a node for each matching element. */
  function Keep<T, U>(s: seq<T>, f: T -> Option<U>): (r: seq<U>)
    ensures |r| <= |s|
    decreases |s|
  {
    if |s| == 0 then []
    else
      var pre := Keep(s[..|s| - 1], f);
      match f(s[|s| - 1])
      case Some(u) => pre + [u]
      case None => pre
  }

  /** The positions `f` selects, in increasing order. */
  function Picked<T, U>(s: seq<T>, f: T -> Option<U>): (ix: seq<nat>)
    ensures forall k :: 0 <= k < |ix| ==> ix[k] < |s| && f(s[ix[k]]).Some?
    ensures forall k, l :: 0 <= k < l < |ix| ==> ix[k] < ix[l]
    ensures forall i :: 0 <= i < |s| && f(s[i]).Some? ==> i in ix
    decreases |s|
  {
    if |s| == 0 then []
    else
      var pre := Picked(s[..|s| - 1], f);
      if f(s[|s| - 1]).Some? then pre + [|s| - 1] else pre
  }

  /** The kept nodes are exactly the images of the picked positions: every selected
      element gives one node, nothing else does, and the order is the input order. */
  lemma {:induction false} KeepIsPicked<T, U>(s: seq<T>, f: T -> Option<U>)
    ensures |Keep(s, f)| == |Picked(s, f)|
    ensures forall k :: 0 <= k < |Keep(s, f)| ==> Keep(s, f)[k] == f(s[Picked(s, f)[k]]).value
    decreases |s|
  {
    if |s| > 0 {
      var pre := s[..|s| - 1];
      KeepIsPicked(pre, f);
      assert forall i :: 0 <= i < |pre| ==> pre[i] == s[i];
    }
  }

  /** Nothing is kept exactly when no element is selected. */
  lemma KeepEmpty<T, U>(s: seq<T>, f: T -> Option<U>)
    ensures |Keep(s, f)| == 0 <==> forall i :: 0 <= i < |s| ==> f(s[i]).None?
  {
    KeepIsPicked(s, f);
    if |Picked(s, f)| > 0 {
      assert f(s[Picked(s, f)[0]]).Some?;
    }
  }

  /** Applying a step that can throw to every element, in order: the first failure
      ends the walk. */
  function Traverse<T, U>(s: seq<T>, f: T -> Result<U, JavaException>): (r: Result<seq<U>, JavaException>)
    ensures r.Success? <==> forall i :: 0 <= i < |s| ==> f(s[i]).Success?
    ensures r.Success? ==> |r.value| == |s| && forall i :: 0 <= i < |s| ==> r.value[i] == f(s[i]).value
    ensures r.Failure? ==> exists i :: 0 <= i < |s| && f(s[i]) == Failure(r.error)
    decreases |s|
  {
    if |s| == 0 then Success([])
    else
      var pre := s[..|s| - 1];
      assert forall i :: 0 <= i < |pre| ==> pre[i] == s[i];
      match Traverse(pre, f)
      case Failure(e) => Failure(e)
      case Success(vs) =>
        match f(s[|s| - 1])
        case Failure(e) => Failure(e)
        case Success(v) => Success(vs + [v])
  }

  // ---------------------------------------------------------------------------
  // The model's spatial objects

  /** The group of an IfcRelAssignsToGroup. */
  datatype Group = Zone(naming: Label) | OtherGroup

  /** An entry of a space's `HasAssignments`. */
  datatype Assignment = AssignsToGroup(group: Group) | OtherAssignment

  /** An IfcSpace with the geometry the engine produced for it, if any. */
  datatype Space = Space(naming: Label, geometry: Option<Geometry>, hasAssignments: seq<Assignment>)

  /** An object a storey decomposes into. */
  datatype StoreyPart = SpacePart(space: Space) | OtherStoreyPart

  /** An IfcBuildingStorey; `decomposedCount` is what the utility library's
      `countDecomposed` reports for it. */
  datatype Storey = Storey(naming: Label, decomposedCount: nat, isDecomposedBy: seq<seq<StoreyPart>>)

  /** An object a building decomposes into. */
  datatype BuildingPart = StoreyPart(storey: Storey) | OtherBuildingPart

  datatype Building = Building(naming: Label, isDecomposedBy: seq<seq<BuildingPart>>)

  /** An object a project's child decomposes into: a building, or anything else, which
      the service casts to a building all the same. */
  datatype SitePart = BuildingPart(building: Building) | OtherSitePart

  /** An object the project decomposes into (normally an IfcSite). */
  datatype Site = Site(naming: Label, isDecomposedBy: seq<seq<SitePart>>)

  /** The IfcProject: its units are not part of this model. */
  datatype Project = Project(naming: Label, isDecomposedBy: seq<seq<Site>>)

  // ---------------------------------------------------------------------------
  // Report nodes

  datatype SpaceSize = SpaceSize(m2: real, m3: real)

  /** `zones` is `None` when the node has no zones field. */
  datatype SpaceNode = SpaceNode(fields: seq<Field>, size: Option<SpaceSize>, zones: Option<seq<seq<Field>>>)

  datatype StoreyNode = StoreyNode(fields: seq<Field>, totalNumberOfObjects: int, spaces: seq<SpaceNode>)

  datatype BuildingNode = BuildingNode(fields: seq<Field>, storeys: seq<StoreyNode>)

  datatype SiteNode = SiteNode(fields: seq<Field>, buildings: seq<BuildingNode>)

  datatype ProjectNode = ProjectNode(fields: seq<Field>, sites: seq<SiteNode>)

  // ---------------------------------------------------------------------------
  // The walker

  /** The zone node of an assignment: only a group assignment whose group is a zone. */
  function ZoneOf(a: Assignment): Option<seq<Field>> {
    if a.AssignsToGroup? && a.group.Zone? then Some(NameAndGuid(a.group.naming)) else None
  }

  function SpaceNodeOf(sp: Space): SpaceNode {
    var zones := Keep(sp.hasAssignments, ZoneOf);
    SpaceNode(
      NameAndGuid(sp.naming),
      if sp.geometry.Some? then Some(SpaceSize(Area(sp.geometry.value), sp.geometry.value.volume)) else None,
      if |zones| > 0 then Some(zones) else None)
  }

  function SpaceOf(p: StoreyPart): Option<SpaceNode> {
    if p.SpacePart? then Some(SpaceNodeOf(p.space)) else None
  }

  function StoreyNodeOf(st: Storey): StoreyNode {
    StoreyNode(NameAndGuid(st.naming), st.decomposedCount, Keep(Flatten(st.isDecomposedBy), SpaceOf))
  }

  function StoreyOf(p: BuildingPart): Option<StoreyNode> {
    if p.StoreyPart? then Some(StoreyNodeOf(p.storey)) else None
  }

  /** `processBuilding`. */
  function ProcessBuilding(b: Building): BuildingNode {
    BuildingNode(NameAndGuid(b.naming), Keep(Flatten(b.isDecomposedBy), StoreyOf))
  }

  /** The cast of a site's child to IfcBuilding. */
  function CastToBuilding(p: SitePart): Result<BuildingNode, JavaException> {
    if p.BuildingPart? then Success(ProcessBuilding(p.building)) else Failure(ClassCastException)
  }

  /** `processSite`: the only exception it throws is the cast of a child. */
  function ProcessSite(s: Site): (r: Result<SiteNode, JavaException>)
    ensures r.Failure? ==> r.error == ClassCastException
  {
    match Traverse(Flatten(s.isDecomposedBy), CastToBuilding)
    case Failure(e) => Failure(e)
    case Success(bs) => Success(SiteNode(NameAndGuid(s.naming), bs))
  }

  /** A site's walk succeeds exactly when every child is a building, and then lists one
      building node per child, in decomposition order. */
  lemma SiteBuildings(s: Site)
    ensures var parts := Flatten(s.isDecomposedBy);
      var r := ProcessSite(s);
      && (r.Success? <==> forall i :: 0 <= i < |parts| ==> parts[i].BuildingPart?)
      && (r.Success? ==> r.value.fields == NameAndGuid(s.naming)
                         && |r.value.buildings| == |parts|
                         && forall i :: 0 <= i < |parts| ==> r.value.buildings[i] == ProcessBuilding(parts[i].building))
  {
  }

  /** Every site's walk succeeds. */
  predicate SitesSucceed(sites: seq<Site>) {
    forall i :: 0 <= i < |sites| ==> ProcessSite(sites[i]).Success?
  }

  lemma SitesWalk(sites: seq<Site>)
    ensures var t := Traverse(sites, ProcessSite);
      && (t.Success? <==> SitesSucceed(sites))
      && (t.Success? ==> |t.value| == |sites| && forall i :: 0 <= i < |sites| ==> t.value[i] == ProcessSite(sites[i]).value)
  {
  }

  /** `processProject` without the units: no node without a project, else one site node
      per object the project decomposes into. */
  function ProcessProject(p: Option<Project>): (r: Result<Option<ProjectNode>, JavaException>)
    ensures p.None? ==> r == Success(None)
    ensures p.Some? ==> var sites := Flatten(p.value.isDecomposedBy);
      && (r.Success? <==> SitesSucceed(sites))
      && (r.Success? ==> r.value.Some? && |r.value.value.sites| == |sites|
                         && forall i :: 0 <= i < |sites| ==> r.value.value.sites[i] == ProcessSite(sites[i]).value)
  {
    if p.None? then Success(None)
    else
      var sites := Flatten(p.value.isDecomposedBy);
      SitesWalk(sites);
      var t := Traverse(sites, ProcessSite);
      if t.Failure? then Failure(t.error)
      else Success(Some(ProjectNode(NameAndGuid(p.value.naming), t.value)))
  }

  // ---------------------------------------------------------------------------
  // What the filters keep

  /** The storeys of a building are its storey children, one node each, in
      decomposition order; no other child gives a node. */
  lemma StoreysAreStoreyChildren(b: Building)
    ensures var parts := Flatten(b.isDecomposedBy);
      var ix := Picked(parts, StoreyOf);
      var storeys := ProcessBuilding(b).storeys;
      && (forall i :: 0 <= i < |parts| ==> (i in ix <==> parts[i].StoreyPart?))
      && (forall k, l :: 0 <= k < l < |ix| ==> ix[k] < ix[l])
      && |storeys| == |ix|
      && forall k :: 0 <= k < |storeys| ==> storeys[k] == StoreyNodeOf(parts[ix[k]].storey)
  {
    KeepIsPicked(Flatten(b.isDecomposedBy), StoreyOf);
  }

  /** The spaces of a storey are its space children, in decomposition order, and the
      storey reports the given decomposed-object count. */
  lemma SpacesAreSpaceChildren(st: Storey)
    ensures var parts := Flatten(st.isDecomposedBy);
      var ix := Picked(parts, SpaceOf);
      var n := StoreyNodeOf(st);
      && n.totalNumberOfObjects == st.decomposedCount
      && (forall i :: 0 <= i < |parts| ==> (i in ix <==> parts[i].SpacePart?))
      && (forall k, l :: 0 <= k < l < |ix| ==> ix[k] < ix[l])
      && |n.spaces| == |ix|
      && forall k :: 0 <= k < |n.spaces| ==> n.spaces[k] == SpaceNodeOf(parts[ix[k]].space)
  {
    KeepIsPicked(Flatten(st.isDecomposedBy), SpaceOf);
  }

  /** A space lists the zones it is assigned to, in assignment order; the field is
      present exactly when there is at least one; size figures appear exactly when the
      space has geometry. */
  lemma ZonesAreZoneAssignments(sp: Space)
    ensures var n := SpaceNodeOf(sp);
      var ix := Picked(sp.hasAssignments, ZoneOf);
      && (n.zones.Some? <==> exists i :: 0 <= i < |sp.hasAssignments| && ZoneOf(sp.hasAssignments[i]).Some?)
      && (n.zones.Some? ==>
            && |n.zones.value| == |ix|
            && forall k :: 0 <= k < |ix| ==>
                 sp.hasAssignments[ix[k]].AssignsToGroup? && sp.hasAssignments[ix[k]].group.Zone?
                 && n.zones.value[k] == NameAndGuid(sp.hasAssignments[ix[k]].group.naming))
      && (forall i :: 0 <= i < |sp.hasAssignments| ==>
            (i in ix <==> sp.hasAssignments[i].AssignsToGroup? && sp.hasAssignments[i].group.Zone?))
      && (n.size.Some? <==> sp.geometry.Some?)
      && (n.size.Some? ==> n.size.value == SpaceSize(Area(sp.geometry.value), sp.geometry.value.volume))
  {
    KeepIsPicked(sp.hasAssignments, ZoneOf);
    KeepEmpty(sp.hasAssignments, ZoneOf);
  }

  /** A site that decomposes into anything but buildings (a sub-site, say) makes the
      walk throw. */
  lemma SubSiteThrows(name: Label, b: Building)
    ensures ProcessSite(Site(name, [[BuildingPart(b), OtherSitePart]])) == Failure(ClassCastException)
  {
    var rels := [[BuildingPart(b), OtherSitePart]];
    assert rels[0][1] == OtherSitePart;
    assert OtherSitePart in Flatten(rels);
    SiteBuildings(Site(name, rels));
  }
}
