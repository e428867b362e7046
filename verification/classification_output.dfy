/** The report `processClassification` builds from the four passes of the
    Classification module: one entry per classification node with the entries of the
    references nested under it, then NO_CLASSIFICATION with the bucket and the
    references without a source. Generic over the keys, like the passes. */
module ClassificationOutput {
  import opened Wrappers
  import opened Seqs
  import opened IfcModel
  import opened Classification

  /** A reference entry of the report: its attributes and `numberOfObjects`. */
  datatype ReferenceEntry = ReferenceEntry(info: ReferenceInfo, numberOfObjects: int)

  /** A classification entry of the report with its nested references. */
  datatype ClassificationEntry = ClassificationEntry(info: ClassificationInfo, references: seq<ReferenceEntry>)

  const NoClassification := ClassificationInfo(Some("NO_CLASSIFICATION"), None, None, None)
  const NoClassificationReferenceInfo := ReferenceInfo(None, None, Some("NO_CLASSIFICATION_REFERENCE"))

  /** What the service can rely on in a loaded model: oids are unique per entity type,
      and a reference's source and an association's target are objects of the model. */
  predicate WellFormed(cs: seq<IfcClassification>, rs: seq<IfcClassificationReference>, assocs: seq<ClassificationAssociation>) {
    && (forall i, j :: 0 <= i < j < |cs| ==> cs[i].oid != cs[j].oid)
    && (forall i, j :: 0 <= i < j < |rs| ==> rs[i].oid != rs[j].oid)
    && (forall i :: 0 <= i < |rs| && rs[i].referencedSource.Some? ==> rs[i].referencedSource.value in ClassOids(cs))
    && (forall i :: 0 <= i < |assocs| && TargetOf(assocs[i]).Some? ==> TargetOf(assocs[i]).value in RefOids(rs))
  }

  /** The first loop's classification index keyed by `ckey`. */
  function Classes<C(==)>(cs: seq<IfcClassification>, ckey: ClassificationInfo -> C): (ix: ClassIndex<C>)
    ensures ValidClassIndex(ix, ckey)
    ensures |ix.nodes| == |ClassKeys(cs, ckey)|
    ensures ix.byOid.Keys == ClassOids(cs)
  {
    ClassificationNodePerKey(cs, ckey);
    IndexClassifications(cs, ckey)
  }

  /** The state after the second loop. */
  function References<C(==), R(==)>(cs: seq<IfcClassification>, rs: seq<IfcClassificationReference>,
                                     ckey: ClassificationInfo -> C, rkey: ReferenceInfo -> R): (ri: ReferenceIndex<R>)
    requires forall i :: 0 <= i < |rs| && rs[i].referencedSource.Some? ==> rs[i].referencedSource.value in ClassOids(cs)
    ensures ValidReferenceIndex(ri, rkey)
    ensures ri.byKey.Keys == RefKeys(rs, rkey)
    ensures ri.byOid.Keys == RefOids(rs)
    ensures |ri.classes| == |Classes(cs, ckey).nodes|
    ensures forall c :: 0 <= c < |ri.classes| ==> ri.classes[c].info == Classes(cs, ckey).nodes[c].info
    ensures ListsBounded(ri) && |ri.unowned| >= 1 && ri.unowned[0] == 0
  {
    var ix := Classes(cs, ckey);
    ReferenceListsBounded(ix.nodes, ix.byOid, rs, rkey);
    IndexReferences(ix.nodes, ix.byOid, rs, rkey)
  }

  /** The counters after the third and fourth loops: node 0, the bucket, holds the
      products no association with a reference classifies, every other node the objects
      of the associations whose target leads to it. */
  function Counters<C(==), R(==)>(cs: seq<IfcClassification>, rs: seq<IfcClassificationReference>,
                                   assocs: seq<ClassificationAssociation>, products: seq<Oid>,
                                   ckey: ClassificationInfo -> C, rkey: ReferenceInfo -> R): (counts: seq<int>)
    requires WellFormed(cs, rs, assocs)
    ensures var ri := References(cs, rs, ckey, rkey);
      && |counts| == |ri.refs|
      && counts[0] == Unclassified(products, Classified(assocs))
      && forall n :: 1 <= n < |counts| ==> counts[n] == ObjectsOf(ri.byOid, n, assocs)
  {
    var ri := References(cs, rs, ckey, rkey);
    TargetsIndexed(ri.byOid, |ri.refs|, rs, assocs);
    CountersOf(ri.byOid, |ri.refs|, assocs, products)
  }

  /** Every association's target is a reference of the index, and none is the bucket. */
  lemma TargetsIndexed(byOid: map<Oid, nat>, size: nat, rs: seq<IfcClassificationReference>, assocs: seq<ClassificationAssociation>)
    requires byOid.Keys == RefOids(rs)
    requires forall o :: o in byOid ==> 1 <= byOid[o] < size
    requires forall i :: 0 <= i < |assocs| && TargetOf(assocs[i]).Some? ==> TargetOf(assocs[i]).value in RefOids(rs)
    ensures TargetsDeclared(byOid, size, assocs)
  {
  }

  /** The counters for an index given by its oid map and number of nodes. */
  function CountersOf(byOid: map<Oid, nat>, size: nat, assocs: seq<ClassificationAssociation>, products: seq<Oid>): (counts: seq<int>)
    requires TargetsDeclared(byOid, size, assocs) && size >= 1
    requires forall o :: o in byOid ==> byOid[o] >= 1
    ensures |counts| == size
    ensures counts[0] == Unclassified(products, Classified(assocs))
    ensures forall n :: 1 <= n < size ==> counts[n] == ObjectsOf(byOid, n, assocs)
  {
    BucketGetsNoObjects(byOid, assocs);
    var counts := CountObjects(byOid, size, assocs);
    counts[0 := counts[0] + Unclassified(products, Classified(assocs))]
  }

  /** No association adds to the bucket, whose node no reference oid maps to. */
  lemma {:induction false} BucketGetsNoObjects(byOid: map<Oid, nat>, assocs: seq<ClassificationAssociation>)
    requires forall o :: o in byOid ==> byOid[o] >= 1
    ensures ObjectsOf(byOid, 0, assocs) == 0
    decreases |assocs|
  {
    if |assocs| > 0 {
      BucketGetsNoObjects(byOid, assocs[..|assocs| - 1]);
    }
  }

  /** The counters add up to every object an association with a reference classifies,
      plus the unclassified products: no object is lost or counted twice. */
  lemma CountersTotal(byOid: map<Oid, nat>, size: nat, assocs: seq<ClassificationAssociation>, products: seq<Oid>)
    requires TargetsDeclared(byOid, size, assocs) && size >= 1
    requires forall o :: o in byOid ==> byOid[o] >= 1
    ensures SumInts(CountersOf(byOid, size, assocs, products))
         == TargetedObjects(assocs) + Unclassified(products, Classified(assocs))
  {
    CountObjectsTotal(byOid, size, assocs);
    SumIntsUpdate(CountObjects(byOid, size, assocs), 0, Unclassified(products, Classified(assocs)));
  }

  /** The info a reference node shows in the report. */
  function NodeInfo(node: ReferenceNode): ReferenceInfo {
    match node
    case ReferenceNode(info, _) => info
    case NoClassificationReference => NoClassificationReferenceInfo
  }

  /** The entries for the reference nodes listed in `l`. */
  function ReferenceEntries(refs: seq<ReferenceNode>, counts: seq<int>, l: seq<nat>): (r: seq<ReferenceEntry>)
    requires |counts| == |refs|
    requires forall j :: 0 <= j < |l| ==> l[j] < |refs|
    ensures |r| == |l|
    ensures forall j :: 0 <= j < |l| ==> r[j] == ReferenceEntry(NodeInfo(refs[l[j]]), counts[l[j]])
    decreases |l|
  {
    if |l| == 0 then []
    else
      var n := l[|l| - 1];
      ReferenceEntries(refs, counts, l[..|l| - 1]) + [ReferenceEntry(NodeInfo(refs[n]), counts[n])]
  }

  /** The entries for classification nodes `classes`, each with its reference list. */
  function ClassificationEntries(refs: seq<ReferenceNode>, counts: seq<int>, classes: seq<ClassificationNode>): (r: seq<ClassificationEntry>)
    requires |counts| == |refs|
    requires forall c, j :: 0 <= c < |classes| && 0 <= j < |classes[c].references| ==> classes[c].references[j] < |refs|
    ensures |r| == |classes|
    ensures forall c :: 0 <= c < |classes| ==>
      r[c] == ClassificationEntry(classes[c].info, ReferenceEntries(refs, counts, classes[c].references))
    decreases |classes|
  {
    if |classes| == 0 then []
    else
      var c := classes[|classes| - 1];
      ClassificationEntries(refs, counts, classes[..|classes| - 1])
      + [ClassificationEntry(c.info, ReferenceEntries(refs, counts, c.references))]
  }

  /** The report's entries from the index and the counters: the classification nodes in
      order, then NO_CLASSIFICATION with the references nested under no classification. */
  function ReportEntries<R>(ri: ReferenceIndex<R>, counts: seq<int>): (r: seq<ClassificationEntry>)
    requires |counts| == |ri.refs| && ListsBounded(ri)
    ensures |r| == |ri.classes| + 1
    ensures forall c :: 0 <= c < |ri.classes| ==>
      r[c] == ClassificationEntry(ri.classes[c].info, ReferenceEntries(ri.refs, counts, ri.classes[c].references))
    ensures r[|ri.classes|] == ClassificationEntry(NoClassification, ReferenceEntries(ri.refs, counts, ri.unowned))
  {
    ClassificationEntries(ri.refs, counts, ri.classes)
    + [ClassificationEntry(NoClassification, ReferenceEntries(ri.refs, counts, ri.unowned))]
  }

  /** `processClassification` with keys `ckey` and `rkey`: one entry per distinct
      classification key, then NO_CLASSIFICATION. */
  function Report<C(==), R(==)>(cs: seq<IfcClassification>, rs: seq<IfcClassificationReference>,
                                 assocs: seq<ClassificationAssociation>, products: seq<Oid>,
                                 ckey: ClassificationInfo -> C, rkey: ReferenceInfo -> R): (r: seq<ClassificationEntry>)
    requires WellFormed(cs, rs, assocs)
    ensures |r| == |ClassKeys(cs, ckey)| + 1
    ensures r[|r| - 1].info == NoClassification
  {
    ReportEntries(References(cs, rs, ckey, rkey), Counters(cs, rs, assocs, products, ckey, rkey))
  }

  /** NO_CLASSIFICATION's first reference is the bucket, which counts the products that
      no association with a reference classifies. */
  lemma ReportBucket<C, R>(cs: seq<IfcClassification>, rs: seq<IfcClassificationReference>,
                                    assocs: seq<ClassificationAssociation>, products: seq<Oid>,
                                    ckey: ClassificationInfo -> C, rkey: ReferenceInfo -> R)
    requires WellFormed(cs, rs, assocs)
    ensures var r := Report(cs, rs, assocs, products, ckey, rkey);
      && |r[|r| - 1].references| >= 1
      && r[|r| - 1].references[0] == ReferenceEntry(NoClassificationReferenceInfo, Unclassified(products, Classified(assocs)))
  {
    var ri := References(cs, rs, ckey, rkey);
    assert ri.refs[0] == NoClassificationReference;
  }

  /** Before NO_CLASSIFICATION the report holds the classification nodes' attributes. */
  lemma ReportClassInfos<C, R>(cs: seq<IfcClassification>, rs: seq<IfcClassificationReference>,
                                        assocs: seq<ClassificationAssociation>, products: seq<Oid>,
                                        ckey: ClassificationInfo -> C, rkey: ReferenceInfo -> R)
    requires WellFormed(cs, rs, assocs)
    ensures var r := Report(cs, rs, assocs, products, ckey, rkey);
      forall i :: 0 <= i < |r| - 1 ==> r[i].info == Classes(cs, ckey).nodes[i].info
  {
  }

  /** Before NO_CLASSIFICATION there is one entry per distinct classification key, in
      the order the keys first appear, each with the attributes of the first
      classification with its key. */
  lemma {:induction false} ReportFirstSeen<C, R>(cs: seq<IfcClassification>, rs: seq<IfcClassificationReference>,
                                                          assocs: seq<ClassificationAssociation>, products: seq<Oid>,
                                                          ckey: ClassificationInfo -> C, rkey: ReferenceInfo -> R)
    requires WellFormed(cs, rs, assocs)
    ensures var r := Report(cs, rs, assocs, products, ckey, rkey);
      && (forall i :: 0 <= i < |r| - 1 ==>
            && ckey(r[i].info) in ClassKeys(cs, ckey)
            && r[i].info == cs[FirstClassIndex(cs, ckey, ckey(r[i].info))].info)
      && (forall i, j :: 0 <= i < j < |r| - 1 ==>
            FirstClassIndex(cs, ckey, ckey(r[i].info)) < FirstClassIndex(cs, ckey, ckey(r[j].info)))
  {
    ReportClassInfos(cs, rs, assocs, products, ckey, rkey);
    ClassificationNodesFirstSeen(cs, ckey);
  }

  /** The model's references give the first loop's index what the second loop needs. */
  lemma SourcesIndexed<C>(cs: seq<IfcClassification>, rs: seq<IfcClassificationReference>, assocs: seq<ClassificationAssociation>,
                              ckey: ClassificationInfo -> C)
    requires WellFormed(cs, rs, assocs)
    ensures SourcesDeclared(Classes(cs, ckey).nodes, Classes(cs, ckey).byOid, rs)
  {
  }

  /** Reference node `n` shows the attributes of the first reference with its key and
      counts the objects of every association whose target has that key. */
  lemma NodeCounts<C, R>(cs: seq<IfcClassification>, rs: seq<IfcClassificationReference>,
                                  assocs: seq<ClassificationAssociation>, products: seq<Oid>,
                                  ckey: ClassificationInfo -> C, rkey: ReferenceInfo -> R, n: nat)
    requires WellFormed(cs, rs, assocs)
    requires 1 <= n < |References(cs, rs, ckey, rkey).refs|
    ensures var ri := References(cs, rs, ckey, rkey);
      var k := rkey(ri.refs[n].info);
      && k in RefKeys(rs, rkey)
      && ri.refs[n].info == rs[FirstRefIndex(rs, rkey, k)].info
      && Counters(cs, rs, assocs, products, ckey, rkey)[n] == ObjectsWithKey(rs, rkey, k, assocs)
  {
    var ix := Classes(cs, ckey);
    SourcesIndexed(cs, rs, assocs, ckey);
    NodeCountsKeyObjects(ix.nodes, ix.byOid, rs, rkey, assocs, n);
  }

  /** Entry `e` shows the attributes of the first reference with its key and counts
      the objects of all associations whose target reference has that key. */
  predicate ShowsKey<R(==)>(e: ReferenceEntry, rs: seq<IfcClassificationReference>, rkey: ReferenceInfo -> R,
                            assocs: seq<ClassificationAssociation>) {
    && rkey(e.info) in RefKeys(rs, rkey)
    && e.info == rs[FirstRefIndex(rs, rkey, rkey(e.info))].info
    && e.numberOfObjects == ObjectsWithKey(rs, rkey, rkey(e.info), assocs)
  }

  /** When every reference node's entry shows its key, so does every entry of the
      report but the bucket. */
  lemma EntriesShowKeys<R>(ri: ReferenceIndex<R>, counts: seq<int>, rs: seq<IfcClassificationReference>,
                           rkey: ReferenceInfo -> R, assocs: seq<ClassificationAssociation>)
    requires |counts| == |ri.refs| && ListsBounded(ri)
    requires forall c, j :: 0 <= c < |ri.classes| && 0 <= j < |ri.classes[c].references| ==> ri.classes[c].references[j] != 0
    requires forall j :: 1 <= j < |ri.unowned| ==> ri.unowned[j] != 0
    requires forall n :: 1 <= n < |ri.refs| ==> ShowsKey(ReferenceEntry(NodeInfo(ri.refs[n]), counts[n]), rs, rkey, assocs)
    ensures var r := ReportEntries(ri, counts);
      forall c, j :: 0 <= c < |r| && 0 <= j < |r[c].references| && (c < |r| - 1 || j >= 1) ==>
        ShowsKey(r[c].references[j], rs, rkey, assocs)
  {
    var r := ReportEntries(ri, counts);
    forall c, j | 0 <= c < |r| && 0 <= j < |r[c].references| && (c < |r| - 1 || j >= 1)
      ensures ShowsKey(r[c].references[j], rs, rkey, assocs)
    {
      var n := if c < |ri.classes| then ri.classes[c].references[j] else ri.unowned[j];
      assert r[c].references[j] == ReferenceEntry(NodeInfo(ri.refs[n]), counts[n]);
    }
  }

  /** Every reference node's entry shows its key. */
  lemma NodesShowKeys<C, R>(cs: seq<IfcClassification>, rs: seq<IfcClassificationReference>,
                            assocs: seq<ClassificationAssociation>, products: seq<Oid>,
                            ckey: ClassificationInfo -> C, rkey: ReferenceInfo -> R)
    requires WellFormed(cs, rs, assocs)
    ensures var ri := References(cs, rs, ckey, rkey);
      var counts := Counters(cs, rs, assocs, products, ckey, rkey);
      forall n :: 1 <= n < |ri.refs| ==> ShowsKey(ReferenceEntry(NodeInfo(ri.refs[n]), counts[n]), rs, rkey, assocs)
  {
    var ri := References(cs, rs, ckey, rkey);
    var counts := Counters(cs, rs, assocs, products, ckey, rkey);
    forall n | 1 <= n < |ri.refs|
      ensures ShowsKey(ReferenceEntry(NodeInfo(ri.refs[n]), counts[n]), rs, rkey, assocs)
    {
      NodeCounts(cs, rs, assocs, products, ckey, rkey, n);
    }
  }

  /** Every reference entry but the bucket shows the attributes of the first reference
      with its key, and counts the objects of all associations whose target reference
      has that key: references with equal keys are merged into one entry. */
  lemma ReportReferenceEntries<C, R>(cs: seq<IfcClassification>, rs: seq<IfcClassificationReference>,
                                     assocs: seq<ClassificationAssociation>, products: seq<Oid>,
                                     ckey: ClassificationInfo -> C, rkey: ReferenceInfo -> R)
    requires WellFormed(cs, rs, assocs)
    ensures var r := Report(cs, rs, assocs, products, ckey, rkey);
      forall c, j :: 0 <= c < |r| && 0 <= j < |r[c].references| && (c < |r| - 1 || j >= 1) ==>
        ShowsKey(r[c].references[j], rs, rkey, assocs)
  {
    var ix := Classes(cs, ckey);
    SourcesIndexed(cs, rs, assocs, ckey);
    BucketListedOnce(ix.nodes, ix.byOid, rs, rkey);
    assert References(cs, rs, ckey, rkey) == IndexReferences(ix.nodes, ix.byOid, rs, rkey);
    NodesShowKeys(cs, rs, assocs, products, ckey, rkey);
    EntriesShowKeys(References(cs, rs, ckey, rkey), Counters(cs, rs, assocs, products, ckey, rkey), rs, rkey, assocs);
  }

  /** A node listed under entry `c` has an entry there. */
  lemma ListedEntry<R>(ri: ReferenceIndex<R>, counts: seq<int>, c: nat, n: nat)
    requires |counts| == |ri.refs| && ListsBounded(ri)
    requires c <= |ri.classes|
    requires c < |ri.classes| ==> n in ri.classes[c].references
    requires c == |ri.classes| ==> n in ri.unowned
    ensures n < |ri.refs|
    ensures var r := ReportEntries(ri, counts);
      exists j :: 0 <= j < |r[c].references| && r[c].references[j] == ReferenceEntry(NodeInfo(ri.refs[n]), counts[n])
  {
    var r := ReportEntries(ri, counts);
    var l := if c < |ri.classes| then ri.classes[c].references else ri.unowned;
    var j :| 0 <= j < |l| && l[j] == n;
    assert r[c].references[j] == ReferenceEntry(NodeInfo(ri.refs[n]), counts[n]);
  }

  /** Entry `c` of report `r` is where a reference with source `src` belongs: the
      entry of the classification with oid `src`, or NO_CLASSIFICATION for none. */
  predicate BelongsUnder<C(==)>(r: seq<ClassificationEntry>, c: nat, cs: seq<IfcClassification>,
                                ckey: ClassificationInfo -> C, src: Option<Oid>) {
    && c < |r|
    && (src.None? ==> c == |r| - 1)
    && (forall i :: 0 <= i < |cs| && src == Some(cs[i].oid) ==> c < |r| - 1 && ckey(r[c].info) == ckey(cs[i].info))
  }

  /** The owner, as an entry index, of the node of reference key `k`: where the node
      is listed. */
  lemma KeyOwner<C, R>(cs: seq<IfcClassification>, rs: seq<IfcClassificationReference>,
                       assocs: seq<ClassificationAssociation>, ckey: ClassificationInfo -> C, rkey: ReferenceInfo -> R, k: R)
      returns (c: nat)
    requires WellFormed(cs, rs, assocs)
    requires k in RefKeys(rs, rkey)
    ensures var ri := References(cs, rs, ckey, rkey);
      && c <= |ri.classes| && k in ri.byKey
      && ri.refs[ri.byKey[k]].info == rs[FirstRefIndex(rs, rkey, k)].info
      && (c < |ri.classes| ==> ri.byKey[k] in ri.classes[c].references)
      && (c == |ri.classes| ==> ri.byKey[k] in ri.unowned)
    ensures var ix := Classes(cs, ckey);
      var src := rs[FirstRefIndex(rs, rkey, k)].referencedSource;
      && (src.None? ==> c == |ix.nodes|)
      && (src.Some? ==> src.value in ix.byOid && c == ix.byOid[src.value])
  {
    var ix := Classes(cs, ckey);
    var ri := References(cs, rs, ckey, rkey);
    var f := FirstRefIndex(rs, rkey, k);
    SourcesIndexed(cs, rs, assocs, ckey);
    assert ri == IndexReferences(ix.nodes, ix.byOid, rs, rkey);
    ReferenceKeyListed(ix.nodes, ix.byOid, rs, rkey, k);
    var o := OwnerOf(ix.nodes, ix.byOid, rs[f]);
    c := if o.Some? then o.value else |ri.classes|;
  }

  /** The entry of the node a source oid leads to is where a reference with that source
      belongs. */
  lemma SourceEntryBelongs<C, R>(cs: seq<IfcClassification>, rs: seq<IfcClassificationReference>,
                                 assocs: seq<ClassificationAssociation>, products: seq<Oid>,
                                 ckey: ClassificationInfo -> C, rkey: ReferenceInfo -> R, src: Option<Oid>, c: nat)
    requires WellFormed(cs, rs, assocs)
    requires src.None? ==> c == |Classes(cs, ckey).nodes|
    requires src.Some? ==> src.value in Classes(cs, ckey).byOid && c == Classes(cs, ckey).byOid[src.value]
    ensures BelongsUnder(Report(cs, rs, assocs, products, ckey, rkey), c, cs, ckey, src)
  {
    var ix := Classes(cs, ckey);
    var r := Report(cs, rs, assocs, products, ckey, rkey);
    ReportClassInfos(cs, rs, assocs, products, ckey, rkey);
    forall i | 0 <= i < |cs| && src == Some(cs[i].oid)
      ensures c < |r| - 1 && ckey(r[c].info) == ckey(cs[i].info)
    {
      OidNodeHasKey(cs, ckey, i);
    }
  }

  /** Every reference key has an entry in the report, nested under the entry of the
      classification that is the source of the first reference with that key, or
      under NO_CLASSIFICATION when that reference has no source. */
  lemma ReportListsEveryReference<C, R>(cs: seq<IfcClassification>, rs: seq<IfcClassificationReference>,
                                        assocs: seq<ClassificationAssociation>, products: seq<Oid>,
                                        ckey: ClassificationInfo -> C, rkey: ReferenceInfo -> R, k: R)
    requires WellFormed(cs, rs, assocs)
    requires k in RefKeys(rs, rkey)
    ensures var r := Report(cs, rs, assocs, products, ckey, rkey);
      var f := FirstRefIndex(rs, rkey, k);
      exists c, j :: 0 <= c < |r| && 0 <= j < |r[c].references|
        && BelongsUnder(r, c, cs, ckey, rs[f].referencedSource)
        && r[c].references[j].info == rs[f].info
  {
    var ri := References(cs, rs, ckey, rkey);
    var counts := Counters(cs, rs, assocs, products, ckey, rkey);
    var r := Report(cs, rs, assocs, products, ckey, rkey);
    var c := KeyOwner(cs, rs, assocs, ckey, rkey, k);
    SourceEntryBelongs(cs, rs, assocs, products, ckey, rkey, rs[FirstRefIndex(rs, rkey, k)].referencedSource, c);
    var n := ri.byKey[k];
    assert r == ReportEntries(ri, counts);
    ListedEntry(ri, counts, c, n);
    var j :| 0 <= j < |r[c].references| && r[c].references[j] == ReferenceEntry(NodeInfo(ri.refs[n]), counts[n]);
    assert r[c].references[j].info == rs[FirstRefIndex(rs, rkey, k)].info;
  }

  /** Entries for the same nodes agree when the counters agree on every listed node. */
  lemma ReferenceEntriesAgree(refs: seq<ReferenceNode>, counts: seq<int>, counts2: seq<int>, l: seq<nat>)
    requires |counts| == |refs| && |counts2| == |refs|
    requires forall j :: 0 <= j < |l| ==> l[j] < |refs| && counts[l[j]] == counts2[l[j]]
    ensures ReferenceEntries(refs, counts, l) == ReferenceEntries(refs, counts2, l)
  {
  }

  /** Counters that differ at most at the bucket give entries that differ at most at
      the head of NO_CLASSIFICATION's list, when that is the only place the bucket is
      listed. */
  lemma EntriesAgreeButBucket<R>(ri: ReferenceIndex<R>, counts: seq<int>, counts2: seq<int>)
    requires |counts| == |ri.refs| && |counts2| == |ri.refs| && ListsBounded(ri) && |ri.unowned| >= 1
    requires forall n :: 1 <= n < |ri.refs| ==> counts2[n] == counts[n]
    requires forall c, j :: 0 <= c < |ri.classes| && 0 <= j < |ri.classes[c].references| ==> ri.classes[c].references[j] != 0
    requires forall j :: 1 <= j < |ri.unowned| ==> ri.unowned[j] != 0
    ensures var r := ReportEntries(ri, counts);
      var r2 := ReportEntries(ri, counts2);
      && |r2| == |r|
      && (forall i :: 0 <= i < |r| - 1 ==> r2[i] == r[i])
      && r2[|r| - 1].info == r[|r| - 1].info
      && |r2[|r| - 1].references| == |r[|r| - 1].references|
      && r2[|r| - 1].references[1..] == r[|r| - 1].references[1..]
  {
    var r := ReportEntries(ri, counts);
    var r2 := ReportEntries(ri, counts2);
    forall c | 0 <= c < |ri.classes|
      ensures r2[c] == r[c]
    {
      ReferenceEntriesAgree(ri.refs, counts, counts2, ri.classes[c].references);
    }
    var last := r[|r| - 1].references;
    var last2 := r2[|r| - 1].references;
    forall j | 1 <= j < |last|
      ensures last2[j] == last[j]
    {
      assert ri.unowned[j] != 0;
    }
    assert last2[1..] == last[1..];
  }

  /** The products are read only by the bucket's counter: two product lists give
      reports that agree everywhere but in NO_CLASSIFICATION's first reference. */
  lemma OnlyBucketReadsProducts<C, R>(cs: seq<IfcClassification>, rs: seq<IfcClassificationReference>,
                                      assocs: seq<ClassificationAssociation>, products: seq<Oid>, products2: seq<Oid>,
                                      ckey: ClassificationInfo -> C, rkey: ReferenceInfo -> R)
    requires WellFormed(cs, rs, assocs)
    ensures var r := Report(cs, rs, assocs, products, ckey, rkey);
      var r2 := Report(cs, rs, assocs, products2, ckey, rkey);
      && |r2| == |r|
      && (forall i :: 0 <= i < |r| - 1 ==> r2[i] == r[i])
      && r2[|r| - 1].info == r[|r| - 1].info
      && |r2[|r| - 1].references| == |r[|r| - 1].references|
      && r2[|r| - 1].references[1..] == r[|r| - 1].references[1..]
  {
    var ix := Classes(cs, ckey);
    SourcesIndexed(cs, rs, assocs, ckey);
    BucketListedOnce(ix.nodes, ix.byOid, rs, rkey);
    var ri := References(cs, rs, ckey, rkey);
    assert ri == IndexReferences(ix.nodes, ix.byOid, rs, rkey);
    EntriesAgreeButBucket(ri, Counters(cs, rs, assocs, products, ckey, rkey), Counters(cs, rs, assocs, products2, ckey, rkey));
  }
}
