/** `processClassification`: classifications merged by a string key, classification
    references merged by a string key and nested under the first classification that
    introduced them, object counts per reference, and the unclassified bucket. */
module Classification {
  import opened Wrappers
  import opened Seqs
  import opened IfcModel

  datatype CalendarDate = CalendarDate(dayComponent: int, monthComponent: int, yearComponent: int)

  /** The attributes of an IfcClassification the report shows. */
  datatype ClassificationInfo = ClassificationInfo(
    name: Option<string>,
    edition: Option<string>,
    source: Option<string>,
    editionDate: Option<CalendarDate>)

  datatype IfcClassification = IfcClassification(oid: Oid, info: ClassificationInfo)

  /** The attributes of an IfcClassificationReference the report shows. */
  datatype ReferenceInfo = ReferenceInfo(
    location: Option<string>,
    itemReference: Option<string>,
    name: Option<string>)

  /** A classification reference with the oid of its `ReferencedSource`, if any. */
  datatype IfcClassificationReference = IfcClassificationReference(
    oid: Oid,
    info: ReferenceInfo,
    referencedSource: Option<Oid>)

  /** What an IfcRelAssociatesClassification points at: a classification reference, or
      another kind of classification notation, which the count ignores. */
  datatype RelatingClassification = ReferenceTarget(reference: Oid) | OtherNotation

  datatype ClassificationAssociation = ClassificationAssociation(
    relatedObjects: seq<Oid>,
    relatingClassification: RelatingClassification)

  // ----- Pass 1: classifications -----
  // The passes take the key function as a parameter: their properties hold for any key,
  // and `ProcessClassification` supplies the two keys above.

  /** A classification node of the report; `references` are indices into the reference arena. */
  datatype ClassificationNode = ClassificationNode(info: ClassificationInfo, references: seq<nat>)

  /** The set of classification keys occurring in `cs`. */
  function ClassKeys<K(==)>(cs: seq<IfcClassification>, key: ClassificationInfo -> K): set<K> {
    set i | 0 <= i < |cs| :: key(cs[i].info)
  }

  /** Position of the first classification with key `k`. */
  function FirstClassIndex<K(==)>(cs: seq<IfcClassification>, key: ClassificationInfo -> K, k: K): (i: nat)
    requires k in ClassKeys(cs, key)
    ensures i < |cs| && key(cs[i].info) == k
    ensures forall j :: 0 <= j < i ==> key(cs[j].info) != k
    decreases |cs|
  {
    var pre := cs[..|cs| - 1];
    assert forall j :: 0 <= j < |pre| ==> pre[j] == cs[j];
    assert ClassKeys(cs, key) == ClassKeys(pre, key) + {key(cs[|cs| - 1].info)};
    if k in ClassKeys(pre, key) then FirstClassIndex(pre, key, k) else |cs| - 1
  }

  function ClassOids(cs: seq<IfcClassification>): set<Oid> {
    set i | 0 <= i < |cs| :: cs[i].oid
  }

  /** The state of the first loop: the nodes in order of appearance, the node of each
      key, and the node of each classification oid. */
  datatype ClassIndex<K> = ClassIndex(
    nodes: seq<ClassificationNode>,
    byKey: map<K, nat>,
    byOid: map<Oid, nat>)

  /** What holds of the first loop's state after every iteration: the key map is a
      bijection between the keys and the nodes, no node has references yet, and every
      oid leads to a node. */
  predicate ValidClassIndex<K(==)>(ix: ClassIndex<K>, key: ClassificationInfo -> K) {
    && (forall k :: k in ix.byKey ==> ix.byKey[k] < |ix.nodes| && key(ix.nodes[ix.byKey[k]].info) == k)
    && (forall i :: 0 <= i < |ix.nodes| ==> key(ix.nodes[i].info) in ix.byKey)
    && (forall i, j :: 0 <= i < j < |ix.nodes| ==> key(ix.nodes[i].info) != key(ix.nodes[j].info))
    && (forall i :: 0 <= i < |ix.nodes| ==> ix.nodes[i].references == [])
    && (forall o :: o in ix.byOid ==> ix.byOid[o] < |ix.nodes|)
  }

  /** One iteration of the first loop. A classification whose key is new gets a node
      with no references, appended; one whose key is known reuses that node. */
  function StepClassification<K(==)>(ix: ClassIndex<K>, c: IfcClassification, key: ClassificationInfo -> K): (ix': ClassIndex<K>)
    requires ValidClassIndex(ix, key)
    ensures ValidClassIndex(ix', key)
    ensures ix'.byKey.Keys == ix.byKey.Keys + {key(c.info)}
    ensures forall k :: k in ix.byKey ==> ix'.byKey[k] == ix.byKey[k]
    ensures ix'.byOid.Keys == ix.byOid.Keys + {c.oid}
    ensures ix'.byOid[c.oid] == ix'.byKey[key(c.info)]
    ensures forall o :: o in ix.byOid && o != c.oid ==> ix'.byOid[o] == ix.byOid[o]
    ensures key(c.info) in ix.byKey ==> ix'.nodes == ix.nodes
    ensures key(c.info) !in ix.byKey ==>
      ix'.nodes == ix.nodes + [ClassificationNode(c.info, [])] && ix'.byKey[key(c.info)] == |ix.nodes|
  {
    var k := key(c.info);
    if k in ix.byKey then
      ClassIndex(ix.nodes, ix.byKey, ix.byOid[c.oid := ix.byKey[k]])
    else
      AppendClassKeepsValid(ix, c, key);
      ClassIndex(ix.nodes + [ClassificationNode(c.info, [])], ix.byKey[k := |ix.nodes|], ix.byOid[c.oid := |ix.nodes|])
  }

  lemma AppendClassKeepsValid<K>(ix: ClassIndex<K>, c: IfcClassification, key: ClassificationInfo -> K)
    requires ValidClassIndex(ix, key) && key(c.info) !in ix.byKey
    ensures ValidClassIndex(ClassIndex(ix.nodes + [ClassificationNode(c.info, [])], ix.byKey[key(c.info) := |ix.nodes|],
                                       ix.byOid[c.oid := |ix.nodes|]), key)
  {
    var nodes := ix.nodes + [ClassificationNode(c.info, [])];
    assert forall i :: 0 <= i < |ix.nodes| ==> nodes[i] == ix.nodes[i];
  }

  /** How the key set and the oid set grow by one classification. */
  lemma ClassesSnoc<K>(cs: seq<IfcClassification>, key: ClassificationInfo -> K)
    requires |cs| > 0
    ensures ClassKeys(cs, key) == ClassKeys(cs[..|cs| - 1], key) + {key(cs[|cs| - 1].info)}
    ensures ClassOids(cs) == ClassOids(cs[..|cs| - 1]) + {cs[|cs| - 1].oid}
  {
    var pre := cs[..|cs| - 1];
    assert forall i :: 0 <= i < |pre| ==> pre[i] == cs[i];
  }

  /** The first loop of `processClassification`. */
  function IndexClassifications<K(==)>(cs: seq<IfcClassification>, key: ClassificationInfo -> K): (ix: ClassIndex<K>)
    ensures ValidClassIndex(ix, key)
    ensures ix.byKey.Keys == ClassKeys(cs, key)
    ensures ix.byOid.Keys == ClassOids(cs)
    decreases |cs|
  {
    if |cs| == 0 then ClassIndex([], map[], map[])
    else
      ClassesSnoc(cs, key);
      StepClassification(IndexClassifications(cs[..|cs| - 1], key), cs[|cs| - 1], key)
  }

  /** Classifications with equal keys yield one node: there is one node per distinct key. */
  lemma {:induction false} ClassificationNodePerKey<K>(cs: seq<IfcClassification>, key: ClassificationInfo -> K)
    ensures |IndexClassifications(cs, key).nodes| == |ClassKeys(cs, key)|
    decreases |cs|
  {
    if |cs| > 0 {
      var pre := cs[..|cs| - 1];
      var k := key(cs[|cs| - 1].info);
      var ix0 := IndexClassifications(pre, key);
      ClassificationNodePerKey(pre, key);
      ClassesSnoc(cs, key);
      assert ClassKeys(cs, key) == ClassKeys(pre, key) + {k} by {
        assert forall i :: 0 <= i < |pre| ==> pre[i] == cs[i];
      }
    }
  }

  /** Appending a classification keeps the first position of every key already seen and
      gives a new key the appended position. */
  lemma FirstClassIndexAppend<K>(pre: seq<IfcClassification>, c: IfcClassification, key: ClassificationInfo -> K)
    ensures ClassKeys(pre + [c], key) == ClassKeys(pre, key) + {key(c.info)}
    ensures forall k :: k in ClassKeys(pre, key) ==> FirstClassIndex(pre + [c], key, k) == FirstClassIndex(pre, key, k)
    ensures key(c.info) !in ClassKeys(pre, key) ==> FirstClassIndex(pre + [c], key, key(c.info)) == |pre|
  {
    var cs := pre + [c];
    assert cs[..|cs| - 1] == pre;
    ClassesSnoc(cs, key);
  }

  /** Each node holds the attributes of the first classification of `cs` with its key. */
  ghost predicate NodesFirstSeen<K>(ix: ClassIndex<K>, cs: seq<IfcClassification>, key: ClassificationInfo -> K) {
    forall i :: 0 <= i < |ix.nodes| ==>
      key(ix.nodes[i].info) in ClassKeys(cs, key) &&
      ix.nodes[i].info == cs[FirstClassIndex(cs, key, key(ix.nodes[i].info))].info
  }

  /** The nodes appear in the order in which their keys first appear in `cs`. */
  ghost predicate NodesInOrder<K>(ix: ClassIndex<K>, cs: seq<IfcClassification>, key: ClassificationInfo -> K) {
    && (forall i :: 0 <= i < |ix.nodes| ==> key(ix.nodes[i].info) in ClassKeys(cs, key))
    && (forall i, j :: 0 <= i < j < |ix.nodes| ==>
          FirstClassIndex(cs, key, key(ix.nodes[i].info)) < FirstClassIndex(cs, key, key(ix.nodes[j].info)))
  }

  /** Every classification of `cs` has its oid lead to the node of its key. */
  ghost predicate OidsShareNode<K>(ix: ClassIndex<K>, cs: seq<IfcClassification>, key: ClassificationInfo -> K) {
    forall i :: 0 <= i < |cs| ==>
      cs[i].oid in ix.byOid && key(cs[i].info) in ix.byKey && ix.byOid[cs[i].oid] == ix.byKey[key(cs[i].info)]
  }

  lemma StepKeepsFirstSeen<K>(ix: ClassIndex<K>, pre: seq<IfcClassification>, c: IfcClassification, key: ClassificationInfo -> K)
    requires ValidClassIndex(ix, key) && ix.byKey.Keys == ClassKeys(pre, key)
    requires NodesFirstSeen(ix, pre, key)
    ensures NodesFirstSeen(StepClassification(ix, c, key), pre + [c], key)
  {
    var ix' := StepClassification(ix, c, key);
    FirstClassIndexAppend(pre, c, key);
    forall i | 0 <= i < |ix.nodes|
      ensures ix'.nodes[i] == ix.nodes[i]
      ensures FirstClassIndex(pre + [c], key, key(ix.nodes[i].info)) == FirstClassIndex(pre, key, key(ix.nodes[i].info))
      ensures (pre + [c])[FirstClassIndex(pre, key, key(ix.nodes[i].info))] == pre[FirstClassIndex(pre, key, key(ix.nodes[i].info))]
    {
    }
  }

  lemma StepKeepsInOrder<K>(ix: ClassIndex<K>, pre: seq<IfcClassification>, c: IfcClassification, key: ClassificationInfo -> K)
    requires ValidClassIndex(ix, key) && ix.byKey.Keys == ClassKeys(pre, key)
    requires NodesInOrder(ix, pre, key)
    ensures NodesInOrder(StepClassification(ix, c, key), pre + [c], key)
  {
    var ix' := StepClassification(ix, c, key);
    FirstClassIndexAppend(pre, c, key);
    forall i | 0 <= i < |ix.nodes|
      ensures ix'.nodes[i] == ix.nodes[i]
      ensures FirstClassIndex(pre + [c], key, key(ix.nodes[i].info)) == FirstClassIndex(pre, key, key(ix.nodes[i].info))
    {
    }
  }

  lemma StepKeepsOidsShareNode<K>(ix: ClassIndex<K>, pre: seq<IfcClassification>, c: IfcClassification, key: ClassificationInfo -> K)
    requires ValidClassIndex(ix, key) && OidsShareNode(ix, pre, key)
    requires forall i :: 0 <= i < |pre| ==> pre[i].oid != c.oid
    ensures OidsShareNode(StepClassification(ix, c, key), pre + [c], key)
  {
    var ix' := StepClassification(ix, c, key);
    var cs := pre + [c];
    forall i | 0 <= i < |cs|
      ensures cs[i].oid in ix'.byOid && key(cs[i].info) in ix'.byKey && ix'.byOid[cs[i].oid] == ix'.byKey[key(cs[i].info)]
    {
      if i < |pre| {
        assert cs[i] == pre[i];
      }
    }
  }

  /** Classifications with equal keys yield one node, holding the attributes of the first
      classification with that key; the nodes are in the order their keys first appear. */
  lemma {:induction false} ClassificationNodesFirstSeen<K>(cs: seq<IfcClassification>, key: ClassificationInfo -> K)
    ensures NodesFirstSeen(IndexClassifications(cs, key), cs, key)
    ensures NodesInOrder(IndexClassifications(cs, key), cs, key)
    decreases |cs|
  {
    if |cs| > 0 {
      var pre := cs[..|cs| - 1];
      ClassificationNodesFirstSeen(pre, key);
      Snoc(cs);
      StepKeepsFirstSeen(IndexClassifications(pre, key), pre, cs[|cs| - 1], key);
      StepKeepsInOrder(IndexClassifications(pre, key), pre, cs[|cs| - 1], key);
    }
  }

  /** Every classification's oid leads to the node of its key, the node shared by all
      classifications with that key. */
  lemma {:induction false} ClassificationOidsShareNode<K>(cs: seq<IfcClassification>, key: ClassificationInfo -> K)
    requires forall i, j :: 0 <= i < j < |cs| ==> cs[i].oid != cs[j].oid
    ensures OidsShareNode(IndexClassifications(cs, key), cs, key)
    decreases |cs|
  {
    if |cs| > 0 {
      var pre := cs[..|cs| - 1];
      assert forall i :: 0 <= i < |pre| ==> pre[i] == cs[i];
      ClassificationOidsShareNode(pre, key);
      Snoc(cs);
      StepKeepsOidsShareNode(IndexClassifications(pre, key), pre, cs[|cs| - 1], key);
    }
  }

  /** The node a classification's oid leads to holds that classification's key. */
  lemma OidNodeHasKey<K>(cs: seq<IfcClassification>, key: ClassificationInfo -> K, i: nat)
    requires forall i, j :: 0 <= i < j < |cs| ==> cs[i].oid != cs[j].oid
    requires i < |cs|
    ensures var ix := IndexClassifications(cs, key);
      cs[i].oid in ix.byOid && ix.byOid[cs[i].oid] < |ix.nodes| && key(ix.nodes[ix.byOid[cs[i].oid]].info) == key(cs[i].info)
  {
    ClassificationOidsShareNode(cs, key);
  }

  // ----- Pass 2: classification references -----

  /** A reference node of the report. Node 0 is the NO_CLASSIFICATION_REFERENCE bucket;
      every other node remembers the classification node it was nested under, `None`
      standing for NO_CLASSIFICATION. */
  datatype ReferenceNode =
    | NoClassificationReference
    | ReferenceNode(info: ReferenceInfo, owner: Option<nat>)

  /** The state of the second loop: the classification nodes with their reference
      lists, the reference list of NO_CLASSIFICATION, the reference nodes, the node of
      each reference key and the node of each reference oid. */
  datatype ReferenceIndex<K> = ReferenceIndex(
    classes: seq<ClassificationNode>,
    unowned: seq<nat>,
    refs: seq<ReferenceNode>,
    byKey: map<K, nat>,
    byOid: map<Oid, nat>)

  function RefKeys<K(==)>(rs: seq<IfcClassificationReference>, key: ReferenceInfo -> K): set<K> {
    set i | 0 <= i < |rs| :: key(rs[i].info)
  }

  function RefOids(rs: seq<IfcClassificationReference>): set<Oid> {
    set i | 0 <= i < |rs| :: rs[i].oid
  }

  /** Position of the first reference with key `k`. */
  function FirstRefIndex<K(==)>(rs: seq<IfcClassificationReference>, key: ReferenceInfo -> K, k: K): (i: nat)
    requires k in RefKeys(rs, key)
    ensures i < |rs| && key(rs[i].info) == k
    ensures forall j :: 0 <= j < i ==> key(rs[j].info) != k
    decreases |rs|
  {
    var pre := rs[..|rs| - 1];
    assert forall j :: 0 <= j < |pre| ==> pre[j] == rs[j];
    assert RefKeys(rs, key) == RefKeys(pre, key) + {key(rs[|rs| - 1].info)};
    if k in RefKeys(pre, key) then FirstRefIndex(pre, key, k) else |rs| - 1
  }

  /** Keys seen in a prefix keep their first position when the sequence grows. */
  lemma FirstRefIndexSnoc<K>(rs: seq<IfcClassificationReference>, key: ReferenceInfo -> K, k: K)
    requires |rs| > 0 && k in RefKeys(rs[..|rs| - 1], key)
    ensures k in RefKeys(rs, key)
    ensures FirstRefIndex(rs, key, k) == FirstRefIndex(rs[..|rs| - 1], key, k)
  {
  }

  /** Every classification oid leads to a node. */
  predicate ClassOfBounded(nodes: seq<ClassificationNode>, classOf: map<Oid, nat>) {
    forall o :: o in classOf ==> classOf[o] < |nodes|
  }

  /** Every `ReferencedSource` is one of the model's classifications. */
  predicate SourcesDeclared(nodes: seq<ClassificationNode>, classOf: map<Oid, nat>, rs: seq<IfcClassificationReference>) {
    && ClassOfBounded(nodes, classOf)
    && forall i :: 0 <= i < |rs| && rs[i].referencedSource.Some? ==> rs[i].referencedSource.value in classOf
  }

  /** How the key set, the oid set and the declared-sources condition grow by one reference. */
  lemma RefsSnoc<K>(nodes: seq<ClassificationNode>, classOf: map<Oid, nat>, rs: seq<IfcClassificationReference>, key: ReferenceInfo -> K)
    requires |rs| > 0
    ensures RefKeys(rs, key) == RefKeys(rs[..|rs| - 1], key) + {key(rs[|rs| - 1].info)}
    ensures RefOids(rs) == RefOids(rs[..|rs| - 1]) + {rs[|rs| - 1].oid}
    ensures SourcesDeclared(nodes, classOf, rs) ==> SourcesDeclared(nodes, classOf, rs[..|rs| - 1])
  {
    var pre := rs[..|rs| - 1];
    assert forall i :: 0 <= i < |pre| ==> pre[i] == rs[i];
  }

  /** The classification node a reference is nested under when it is the first with its key. */
  function OwnerOf(nodes: seq<ClassificationNode>, classOf: map<Oid, nat>, r: IfcClassificationReference): (o: Option<nat>)
    requires ClassOfBounded(nodes, classOf)
    requires r.referencedSource.Some? ==> r.referencedSource.value in classOf
    ensures o.Some? <==> r.referencedSource.Some?
    ensures o.Some? ==> o.value == classOf[r.referencedSource.value] && o.value < |nodes|
  {
    match r.referencedSource
    case None => None
    case Some(src) => Some(classOf[src])
  }

  /** Node `n` sits in the reference list of owner `o`. */
  predicate NestedUnder(refs: seq<ReferenceNode>, n: nat, o: Option<nat>) {
    n < |refs| && match refs[n]
      case NoClassificationReference => o.None?
      case ReferenceNode(_, owner) => owner == o
  }

  /** What holds of the second loop's state after every iteration: node 0 is the
      bucket, every other node is a reference nested under an existing owner, and the
      key and oid maps point at reference nodes, the key map at one with that key. */
  predicate ValidReferenceIndex<K(==)>(ri: ReferenceIndex<K>, key: ReferenceInfo -> K) {
    && |ri.refs| >= 1 && ri.refs[0] == NoClassificationReference
    && (forall n :: 1 <= n < |ri.refs| ==>
          ri.refs[n].ReferenceNode? && (ri.refs[n].owner.Some? ==> ri.refs[n].owner.value < |ri.classes|))
    && (forall k :: k in ri.byKey ==>
          1 <= ri.byKey[k] < |ri.refs| && key(ri.refs[ri.byKey[k]].info) == k)
    && (forall o :: o in ri.byOid ==> 1 <= ri.byOid[o] < |ri.refs|)
  }

  /** Every list holds exactly the nodes nested under its owner. */
  ghost predicate ListsExact<K>(ri: ReferenceIndex<K>) {
    && (forall c, n :: 0 <= c < |ri.classes| ==> (n in ri.classes[c].references <==> NestedUnder(ri.refs, n, Some(c))))
    && (forall n :: n in ri.unowned <==> NestedUnder(ri.refs, n, None))
  }

  /** Every list is in the order the nodes were created, none twice. */
  predicate ListsIncreasing<K>(ri: ReferenceIndex<K>) {
    && (forall c :: 0 <= c < |ri.classes| ==> StrictlyIncreasing(ri.classes[c].references))
    && StrictlyIncreasing(ri.unowned)
  }

  predicate StrictlyIncreasing(s: seq<nat>) {
    forall i, j :: 0 <= i < j < |s| ==> s[i] < s[j]
  }

  /** A new reference node for `r`, nested under owner `o`. */
  function AddReference<K(==)>(ri: ReferenceIndex<K>, r: IfcClassificationReference, o: Option<nat>, k: K): (ri': ReferenceIndex<K>)
    requires o.Some? ==> o.value < |ri.classes|
    ensures ri'.refs == ri.refs + [ReferenceNode(r.info, o)]
    ensures |ri'.classes| == |ri.classes|
    ensures forall c :: 0 <= c < |ri.classes| ==> ri'.classes[c].info == ri.classes[c].info
    ensures forall c :: 0 <= c < |ri.classes| ==>
      ri'.classes[c].references == if o == Some(c) then ri.classes[c].references + [|ri.refs|] else ri.classes[c].references
    ensures ri'.unowned == if o.None? then ri.unowned + [|ri.refs|] else ri.unowned
    ensures ri'.byKey == ri.byKey[k := |ri.refs|]
    ensures ri'.byOid == ri.byOid[r.oid := |ri.refs|]
  {
    var n := |ri.refs|;
    match o
    case None =>
      ReferenceIndex(ri.classes, ri.unowned + [n], ri.refs + [ReferenceNode(r.info, o)], ri.byKey[k := n], ri.byOid[r.oid := n])
    case Some(c) =>
      var classes := ri.classes[c := ri.classes[c].(references := ri.classes[c].references + [n])];
      ReferenceIndex(classes, ri.unowned, ri.refs + [ReferenceNode(r.info, o)], ri.byKey[k := n], ri.byOid[r.oid := n])
  }

  /** One iteration of the second loop. A reference whose key is new gets a node,
      appended to the list of the classification node its source maps to, or of
      NO_CLASSIFICATION when it has no source; one whose key is known reuses that node
      and is nested nowhere else. */
  function StepReference<K(==)>(nodes: seq<ClassificationNode>, classOf: map<Oid, nat>, ri: ReferenceIndex<K>, r: IfcClassificationReference, key: ReferenceInfo -> K): (ri': ReferenceIndex<K>)
    requires ValidReferenceIndex(ri, key) && |ri.classes| == |nodes| && ClassOfBounded(nodes, classOf)
    requires r.referencedSource.Some? ==> r.referencedSource.value in classOf
    ensures ValidReferenceIndex(ri', key)
    ensures |ri'.classes| == |ri.classes|
    ensures forall c :: 0 <= c < |ri.classes| ==> ri'.classes[c].info == ri.classes[c].info
    ensures ri'.byKey.Keys == ri.byKey.Keys + {key(r.info)}
    ensures forall k :: k in ri.byKey ==> ri'.byKey[k] == ri.byKey[k]
    ensures ri'.byOid.Keys == ri.byOid.Keys + {r.oid}
    ensures ri'.byOid[r.oid] == ri'.byKey[key(r.info)]
    ensures forall o :: o in ri.byOid && o != r.oid ==> ri'.byOid[o] == ri.byOid[o]
    ensures key(r.info) in ri.byKey ==> ri'.refs == ri.refs
    ensures key(r.info) !in ri.byKey ==>
      ri'.refs == ri.refs + [ReferenceNode(r.info, OwnerOf(nodes, classOf, r))] && ri'.byKey[key(r.info)] == |ri.refs|
  {
    var k := key(r.info);
    if k in ri.byKey then
      ReuseKeepsValid(ri, r, key);
      ri.(byOid := ri.byOid[r.oid := ri.byKey[k]])
    else
      AddKeepsValid(ri, r, OwnerOf(nodes, classOf, r), key);
      AddReference(ri, r, OwnerOf(nodes, classOf, r), k)
  }

  lemma ReuseKeepsValid<K>(ri: ReferenceIndex<K>, r: IfcClassificationReference, key: ReferenceInfo -> K)
    requires ValidReferenceIndex(ri, key) && key(r.info) in ri.byKey
    ensures ValidReferenceIndex(ri.(byOid := ri.byOid[r.oid := ri.byKey[key(r.info)]]), key)
  {
  }

  lemma AddKeepsValid<K>(ri: ReferenceIndex<K>, r: IfcClassificationReference, o: Option<nat>, key: ReferenceInfo -> K)
    requires ValidReferenceIndex(ri, key) && (o.Some? ==> o.value < |ri.classes|)
    ensures ValidReferenceIndex(AddReference(ri, r, o, key(r.info)), key)
  {
    var ri' := AddReference(ri, r, o, key(r.info));
    assert forall m :: 0 <= m < |ri.refs| ==> ri'.refs[m] == ri.refs[m];
  }

  /** Adding a node keeps every list exact. */
  lemma AddKeepsListsExact<K>(ri: ReferenceIndex<K>, r: IfcClassificationReference, o: Option<nat>, k: K)
    requires o.Some? ==> o.value < |ri.classes|
    requires ListsExact(ri)
    ensures ListsExact(AddReference(ri, r, o, k))
  {
    var ri' := AddReference(ri, r, o, k);
    forall m: nat, o': Option<nat> | m < |ri.refs|
      ensures NestedUnder(ri'.refs, m, o') == NestedUnder(ri.refs, m, o')
    {
      assert ri'.refs[m] == ri.refs[m];
    }
  }

  /** Appending a value above every element keeps a list increasing. */
  lemma AppendLargerKeepsIncreasing(l: seq<nat>, n: nat)
    requires StrictlyIncreasing(l)
    requires forall i :: 0 <= i < |l| ==> l[i] < n
    ensures StrictlyIncreasing(l + [n])
  {
  }

  /** Adding a node keeps every list increasing: the new node is the largest. */
  lemma AddKeepsListsIncreasing<K>(ri: ReferenceIndex<K>, r: IfcClassificationReference, o: Option<nat>, k: K)
    requires o.Some? ==> o.value < |ri.classes|
    requires ListsExact(ri) && ListsIncreasing(ri)
    ensures ListsIncreasing(AddReference(ri, r, o, k))
  {
    var ri' := AddReference(ri, r, o, k);
    var n := |ri.refs|;
    forall c | 0 <= c < |ri.classes|
      ensures StrictlyIncreasing(ri'.classes[c].references)
    {
      var l := ri.classes[c].references;
      if o == Some(c) {
        assert forall i :: 0 <= i < |l| ==> NestedUnder(ri.refs, l[i], Some(c));
        AppendLargerKeepsIncreasing(l, n);
      }
    }
    var u := ri.unowned;
    if o.None? {
      assert forall i :: 0 <= i < |u| ==> NestedUnder(ri.refs, u[i], None);
      AppendLargerKeepsIncreasing(u, n);
    }
  }

  /** An iteration keeps every list exact and increasing. */
  lemma StepKeepsLists<K>(nodes: seq<ClassificationNode>, classOf: map<Oid, nat>, ri: ReferenceIndex<K>, r: IfcClassificationReference, key: ReferenceInfo -> K)
    requires ValidReferenceIndex(ri, key) && |ri.classes| == |nodes| && ClassOfBounded(nodes, classOf)
    requires r.referencedSource.Some? ==> r.referencedSource.value in classOf
    requires ListsExact(ri) && ListsIncreasing(ri)
    ensures ListsExact(StepReference(nodes, classOf, ri, r, key))
    ensures ListsIncreasing(StepReference(nodes, classOf, ri, r, key))
  {
    if key(r.info) !in ri.byKey {
      var o := OwnerOf(nodes, classOf, r);
      AddKeepsListsExact(ri, r, o, key(r.info));
      AddKeepsListsIncreasing(ri, r, o, key(r.info));
    }
  }

  /** The second loop of `processClassification`, starting from the classification
      nodes and a NO_CLASSIFICATION list holding only the bucket. */
  function IndexReferences<K(==)>(nodes: seq<ClassificationNode>, classOf: map<Oid, nat>, rs: seq<IfcClassificationReference>, key: ReferenceInfo -> K): (ri: ReferenceIndex<K>)
    requires SourcesDeclared(nodes, classOf, rs)
    ensures ValidReferenceIndex(ri, key)
    ensures |ri.classes| == |nodes|
    ensures forall c :: 0 <= c < |ri.classes| ==> ri.classes[c].info == nodes[c].info
    ensures ri.byKey.Keys == RefKeys(rs, key)
    ensures ri.byOid.Keys == RefOids(rs)
    decreases |rs|
  {
    if |rs| == 0 then
      ReferenceIndex(nodes, [0], [NoClassificationReference], map[], map[])
    else
      RefsSnoc(nodes, classOf, rs, key);
      StepReference(nodes, classOf, IndexReferences(nodes, classOf, rs[..|rs| - 1], key), rs[|rs| - 1], key)
  }

  /** References with equal keys yield one node: besides the bucket there is one node
      per distinct key. */
  lemma {:induction false} ReferenceNodePerKey<K>(nodes: seq<ClassificationNode>, classOf: map<Oid, nat>, rs: seq<IfcClassificationReference>, key: ReferenceInfo -> K)
    requires SourcesDeclared(nodes, classOf, rs)
    ensures |IndexReferences(nodes, classOf, rs, key).refs| == 1 + |RefKeys(rs, key)|
    decreases |rs|
  {
    if |rs| > 0 {
      RefsSnoc(nodes, classOf, rs, key);
      ReferenceNodePerKey(nodes, classOf, rs[..|rs| - 1], key);
    }
  }

  /** Each key's node holds the attributes and the owner of the first reference of
      `rs` with that key. */
  ghost predicate RefNodesFirstSeen<K>(ri: ReferenceIndex<K>, nodes: seq<ClassificationNode>, classOf: map<Oid, nat>,
                                       rs: seq<IfcClassificationReference>, key: ReferenceInfo -> K)
    requires SourcesDeclared(nodes, classOf, rs)
  {
    forall k :: k in ri.byKey ==>
      && k in RefKeys(rs, key) && ri.byKey[k] < |ri.refs|
      && ri.refs[ri.byKey[k]] == ReferenceNode(rs[FirstRefIndex(rs, key, k)].info, OwnerOf(nodes, classOf, rs[FirstRefIndex(rs, key, k)]))
  }

  /** A key already indexed keeps its node through one more reference. */
  lemma StepKeepsKeyNode<K>(nodes: seq<ClassificationNode>, classOf: map<Oid, nat>, ri: ReferenceIndex<K>,
                            rs: seq<IfcClassificationReference>, key: ReferenceInfo -> K, k: K)
    requires |rs| > 0 && SourcesDeclared(nodes, classOf, rs)
    requires ValidReferenceIndex(ri, key) && |ri.classes| == |nodes|
    requires SourcesDeclared(nodes, classOf, rs[..|rs| - 1]) && RefNodesFirstSeen(ri, nodes, classOf, rs[..|rs| - 1], key)
    requires k in ri.byKey
    ensures var ri' := StepReference(nodes, classOf, ri, rs[|rs| - 1], key);
      && k in RefKeys(rs, key) && ri'.byKey[k] < |ri'.refs|
      && ri'.refs[ri'.byKey[k]] == ReferenceNode(rs[FirstRefIndex(rs, key, k)].info, OwnerOf(nodes, classOf, rs[FirstRefIndex(rs, key, k)]))
  {
    var pre := rs[..|rs| - 1];
    var ri' := StepReference(nodes, classOf, ri, rs[|rs| - 1], key);
    var f := FirstRefIndex(pre, key, k);
    FirstRefIndexSnoc(rs, key, k);
    assert pre[f] == rs[f];
    assert ri'.refs[ri.byKey[k]] == ri.refs[ri.byKey[k]];
  }

  /** A new key's node holds the reference that introduced it. */
  lemma StepAddsKeyNode<K>(nodes: seq<ClassificationNode>, classOf: map<Oid, nat>, ri: ReferenceIndex<K>,
                           rs: seq<IfcClassificationReference>, key: ReferenceInfo -> K)
    requires |rs| > 0 && SourcesDeclared(nodes, classOf, rs)
    requires ValidReferenceIndex(ri, key) && |ri.classes| == |nodes|
    requires ri.byKey.Keys == RefKeys(rs[..|rs| - 1], key)
    requires key(rs[|rs| - 1].info) !in ri.byKey
    ensures var ri' := StepReference(nodes, classOf, ri, rs[|rs| - 1], key);
      var k := key(rs[|rs| - 1].info);
      && k in RefKeys(rs, key) && ri'.byKey[k] < |ri'.refs|
      && ri'.refs[ri'.byKey[k]] == ReferenceNode(rs[FirstRefIndex(rs, key, k)].info, OwnerOf(nodes, classOf, rs[FirstRefIndex(rs, key, k)]))
  {
    RefsSnoc(nodes, classOf, rs, key);
    assert FirstRefIndex(rs, key, key(rs[|rs| - 1].info)) == |rs| - 1;
  }

  lemma StepKeepsRefNodesFirstSeen<K>(nodes: seq<ClassificationNode>, classOf: map<Oid, nat>, ri: ReferenceIndex<K>,
                                      rs: seq<IfcClassificationReference>, key: ReferenceInfo -> K)
    requires |rs| > 0 && SourcesDeclared(nodes, classOf, rs)
    requires ValidReferenceIndex(ri, key) && |ri.classes| == |nodes|
    requires ri.byKey.Keys == RefKeys(rs[..|rs| - 1], key)
    requires SourcesDeclared(nodes, classOf, rs[..|rs| - 1]) && RefNodesFirstSeen(ri, nodes, classOf, rs[..|rs| - 1], key)
    ensures RefNodesFirstSeen(StepReference(nodes, classOf, ri, rs[|rs| - 1], key), nodes, classOf, rs, key)
  {
    var ri' := StepReference(nodes, classOf, ri, rs[|rs| - 1], key);
    forall k | k in ri'.byKey
      ensures k in RefKeys(rs, key) && ri'.byKey[k] < |ri'.refs|
      ensures ri'.refs[ri'.byKey[k]] == ReferenceNode(rs[FirstRefIndex(rs, key, k)].info, OwnerOf(nodes, classOf, rs[FirstRefIndex(rs, key, k)]))
    {
      if k in ri.byKey {
        StepKeepsKeyNode(nodes, classOf, ri, rs, key, k);
      } else {
        StepAddsKeyNode(nodes, classOf, ri, rs, key);
      }
    }
  }

  /** The node of each key holds the attributes of the first reference with that key and
      is nested under that reference's source, whatever the sources of later references
      with the same key. */
  lemma {:induction false} ReferencesFirstSeen<K>(nodes: seq<ClassificationNode>, classOf: map<Oid, nat>, rs: seq<IfcClassificationReference>, key: ReferenceInfo -> K)
    requires SourcesDeclared(nodes, classOf, rs)
    ensures var ri := IndexReferences(nodes, classOf, rs, key);
      forall k :: k in ri.byKey ==>
        var f := FirstRefIndex(rs, key, k);
        ri.refs[ri.byKey[k]] == ReferenceNode(rs[f].info, OwnerOf(nodes, classOf, rs[f]))
  {
    ReferenceNodesFirstSeen(nodes, classOf, rs, key);
  }

  lemma {:induction false} ReferenceNodesFirstSeen<K>(nodes: seq<ClassificationNode>, classOf: map<Oid, nat>, rs: seq<IfcClassificationReference>, key: ReferenceInfo -> K)
    requires SourcesDeclared(nodes, classOf, rs)
    ensures RefNodesFirstSeen(IndexReferences(nodes, classOf, rs, key), nodes, classOf, rs, key)
    decreases |rs|
  {
    if |rs| > 0 {
      RefsSnoc(nodes, classOf, rs, key);
      ReferenceNodesFirstSeen(nodes, classOf, rs[..|rs| - 1], key);
      StepKeepsRefNodesFirstSeen(nodes, classOf, IndexReferences(nodes, classOf, rs[..|rs| - 1], key), rs, key);
    }
  }

  /** Every reference node is the node of its own key. */
  predicate NodesKeyed<K(==)>(ri: ReferenceIndex<K>, key: ReferenceInfo -> K)
    requires ValidReferenceIndex(ri, key)
  {
    forall n :: 1 <= n < |ri.refs| ==> key(ri.refs[n].info) in ri.byKey && ri.byKey[key(ri.refs[n].info)] == n
  }

  lemma StepKeepsNodesKeyed<K>(nodes: seq<ClassificationNode>, classOf: map<Oid, nat>, ri: ReferenceIndex<K>, r: IfcClassificationReference, key: ReferenceInfo -> K)
    requires ValidReferenceIndex(ri, key) && |ri.classes| == |nodes| && ClassOfBounded(nodes, classOf)
    requires r.referencedSource.Some? ==> r.referencedSource.value in classOf
    requires NodesKeyed(ri, key)
    ensures NodesKeyed(StepReference(nodes, classOf, ri, r, key), key)
  {
    var ri' := StepReference(nodes, classOf, ri, r, key);
    forall n | 1 <= n < |ri'.refs|
      ensures key(ri'.refs[n].info) in ri'.byKey && ri'.byKey[key(ri'.refs[n].info)] == n
    {
      if n < |ri.refs| {
        assert ri'.refs[n] == ri.refs[n];
      }
    }
  }

  /** No two reference nodes share a key, and every node is reached through its key. */
  lemma {:induction false} ReferenceNodesKeyed<K>(nodes: seq<ClassificationNode>, classOf: map<Oid, nat>, rs: seq<IfcClassificationReference>, key: ReferenceInfo -> K)
    requires SourcesDeclared(nodes, classOf, rs)
    ensures NodesKeyed(IndexReferences(nodes, classOf, rs, key), key)
    decreases |rs|
  {
    if |rs| > 0 {
      RefsSnoc(nodes, classOf, rs, key);
      ReferenceNodesKeyed(nodes, classOf, rs[..|rs| - 1], key);
      StepKeepsNodesKeyed(nodes, classOf, IndexReferences(nodes, classOf, rs[..|rs| - 1], key), rs[|rs| - 1], key);
    }
  }

  /** A classification node's reference list holds exactly the reference nodes nested
      under it and NO_CLASSIFICATION's list the bucket and the nodes nested under no
      classification, so every reference node is listed under exactly one owner; each
      list is in the order the nodes were created, none twice. */
  lemma {:induction false} ReferencesNested<K>(nodes: seq<ClassificationNode>, classOf: map<Oid, nat>, rs: seq<IfcClassificationReference>, key: ReferenceInfo -> K)
    requires SourcesDeclared(nodes, classOf, rs)
    requires forall c :: 0 <= c < |nodes| ==> nodes[c].references == []
    ensures ListsExact(IndexReferences(nodes, classOf, rs, key))
    ensures ListsIncreasing(IndexReferences(nodes, classOf, rs, key))
    decreases |rs|
  {
    if |rs| > 0 {
      RefsSnoc(nodes, classOf, rs, key);
      ReferencesNested(nodes, classOf, rs[..|rs| - 1], key);
      StepKeepsLists(nodes, classOf, IndexReferences(nodes, classOf, rs[..|rs| - 1], key), rs[|rs| - 1], key);
    }
  }

  /** Every listed node exists. */
  predicate ListsBounded<K>(ri: ReferenceIndex<K>) {
    && (forall c, j :: 0 <= c < |ri.classes| && 0 <= j < |ri.classes[c].references| ==> ri.classes[c].references[j] < |ri.refs|)
    && (forall j :: 0 <= j < |ri.unowned| ==> ri.unowned[j] < |ri.refs|)
  }

  /** After the second loop every listed node exists, and NO_CLASSIFICATION's list
      starts with the bucket. */
  lemma ReferenceListsBounded<K>(nodes: seq<ClassificationNode>, classOf: map<Oid, nat>, rs: seq<IfcClassificationReference>, key: ReferenceInfo -> K)
    requires SourcesDeclared(nodes, classOf, rs)
    requires forall c :: 0 <= c < |nodes| ==> nodes[c].references == []
    ensures var ri := IndexReferences(nodes, classOf, rs, key);
      ListsBounded(ri) && |ri.unowned| >= 1 && ri.unowned[0] == 0
  {
    var ri := IndexReferences(nodes, classOf, rs, key);
    ReferencesNested(nodes, classOf, rs, key);
    assert NestedUnder(ri.refs, 0, None);
    var j :| 0 <= j < |ri.unowned| && ri.unowned[j] == 0;
    assert ri.unowned[0] <= ri.unowned[j];
    assert j == 0;
    assert forall c, j :: 0 <= c < |ri.classes| && 0 <= j < |ri.classes[c].references| ==>
      NestedUnder(ri.refs, ri.classes[c].references[j], Some(c));
    assert forall j :: 0 <= j < |ri.unowned| ==> NestedUnder(ri.refs, ri.unowned[j], None);
  }

  /** The bucket is listed nowhere but at the head of NO_CLASSIFICATION's list. */
  lemma BucketListedOnce<K>(nodes: seq<ClassificationNode>, classOf: map<Oid, nat>, rs: seq<IfcClassificationReference>, key: ReferenceInfo -> K)
    requires SourcesDeclared(nodes, classOf, rs)
    requires forall c :: 0 <= c < |nodes| ==> nodes[c].references == []
    ensures var ri := IndexReferences(nodes, classOf, rs, key);
      && (forall c, j :: 0 <= c < |ri.classes| && 0 <= j < |ri.classes[c].references| ==> ri.classes[c].references[j] != 0)
      && (forall j :: 1 <= j < |ri.unowned| ==> ri.unowned[j] != 0)
  {
    var ri := IndexReferences(nodes, classOf, rs, key);
    ReferencesNested(nodes, classOf, rs, key);
    ReferenceListsBounded(nodes, classOf, rs, key);
    assert forall c, j :: 0 <= c < |ri.classes| && 0 <= j < |ri.classes[c].references| ==>
      NestedUnder(ri.refs, ri.classes[c].references[j], Some(c));
  }

  /** The node of each reference key is listed under the owner of the first reference
      with that key. */
  lemma ReferenceKeyListed<K>(nodes: seq<ClassificationNode>, classOf: map<Oid, nat>, rs: seq<IfcClassificationReference>,
                              key: ReferenceInfo -> K, k: K)
    requires SourcesDeclared(nodes, classOf, rs)
    requires forall c :: 0 <= c < |nodes| ==> nodes[c].references == []
    requires k in RefKeys(rs, key)
    ensures var ri := IndexReferences(nodes, classOf, rs, key);
      var f := FirstRefIndex(rs, key, k);
      && k in ri.byKey
      && ri.refs[ri.byKey[k]].info == rs[f].info
      && match OwnerOf(nodes, classOf, rs[f])
         case Some(c) => c < |ri.classes| && ri.byKey[k] in ri.classes[c].references
         case None => ri.byKey[k] in ri.unowned
  {
    var ri := IndexReferences(nodes, classOf, rs, key);
    ReferencesFirstSeen(nodes, classOf, rs, key);
    ReferencesNested(nodes, classOf, rs, key);
    assert NestedUnder(ri.refs, ri.byKey[k], OwnerOf(nodes, classOf, rs[FirstRefIndex(rs, key, k)]));
  }

  /** Every reference of `rs` has its oid lead to the node of its key. */
  ghost predicate RefOidsShareNode<K>(ri: ReferenceIndex<K>, rs: seq<IfcClassificationReference>, key: ReferenceInfo -> K) {
    forall i :: 0 <= i < |rs| ==>
      rs[i].oid in ri.byOid && key(rs[i].info) in ri.byKey && ri.byOid[rs[i].oid] == ri.byKey[key(rs[i].info)]
  }

  lemma StepKeepsRefOidsShareNode<K>(nodes: seq<ClassificationNode>, classOf: map<Oid, nat>, ri: ReferenceIndex<K>,
                                          pre: seq<IfcClassificationReference>, r: IfcClassificationReference, key: ReferenceInfo -> K)
    requires ValidReferenceIndex(ri, key) && |ri.classes| == |nodes| && ClassOfBounded(nodes, classOf)
    requires r.referencedSource.Some? ==> r.referencedSource.value in classOf
    requires RefOidsShareNode(ri, pre, key)
    requires forall i :: 0 <= i < |pre| ==> pre[i].oid != r.oid
    ensures RefOidsShareNode(StepReference(nodes, classOf, ri, r, key), pre + [r], key)
  {
    var ri' := StepReference(nodes, classOf, ri, r, key);
    var rs := pre + [r];
    forall i | 0 <= i < |rs|
      ensures rs[i].oid in ri'.byOid && key(rs[i].info) in ri'.byKey && ri'.byOid[rs[i].oid] == ri'.byKey[key(rs[i].info)]
    {
      if i < |pre| {
        assert rs[i] == pre[i];
      }
    }
  }

  /** Every reference's oid leads to the node of its key, the node shared by all
      references with that key. */
  lemma {:induction false} ReferenceOidsShareNode<K>(nodes: seq<ClassificationNode>, classOf: map<Oid, nat>, rs: seq<IfcClassificationReference>, key: ReferenceInfo -> K)
    requires SourcesDeclared(nodes, classOf, rs)
    requires forall i, j :: 0 <= i < j < |rs| ==> rs[i].oid != rs[j].oid
    ensures RefOidsShareNode(IndexReferences(nodes, classOf, rs, key), rs, key)
    decreases |rs|
  {
    if |rs| > 0 {
      var pre := rs[..|rs| - 1];
      assert forall i :: 0 <= i < |pre| ==> pre[i] == rs[i];
      RefsSnoc(nodes, classOf, rs, key);
      ReferenceOidsShareNode(nodes, classOf, pre, key);
      Snoc(rs);
      StepKeepsRefOidsShareNode(nodes, classOf, IndexReferences(nodes, classOf, pre, key), pre, rs[|rs| - 1], key);
    }
  }

  // ----- Pass 3: object counts per reference -----

  function TargetOf(a: ClassificationAssociation): Option<Oid> {
    match a.relatingClassification
    case ReferenceTarget(r) => Some(r)
    case OtherNotation => None
  }

  /** Every association that targets a reference targets one the second loop indexed. */
  predicate TargetsDeclared(byOid: map<Oid, nat>, size: nat, assocs: seq<ClassificationAssociation>) {
    forall i :: 0 <= i < |assocs| && TargetOf(assocs[i]).Some? ==>
      TargetOf(assocs[i]).value in byOid && byOid[TargetOf(assocs[i]).value] < size
  }

  /** Objects association `a` adds to reference node `n`. */
  function Contribution(byOid: map<Oid, nat>, n: nat, a: ClassificationAssociation): nat {
    match TargetOf(a)
    case Some(t) => if t in byOid && byOid[t] == n then |a.relatedObjects| else 0
    case None => 0
  }

  /** The objects of all associations whose target reference maps to node `n`. */
  function ObjectsOf(byOid: map<Oid, nat>, n: nat, assocs: seq<ClassificationAssociation>): nat
    decreases |assocs|
  {
    if |assocs| == 0 then 0 else ObjectsOf(byOid, n, assocs[..|assocs| - 1]) + Contribution(byOid, n, assocs[|assocs| - 1])
  }

  /** The objects of all associations that target a reference. */
  function TargetedObjects(assocs: seq<ClassificationAssociation>): nat
    decreases |assocs|
  {
    if |assocs| == 0 then 0
    else TargetedObjects(assocs[..|assocs| - 1]) + (if TargetOf(assocs[|assocs| - 1]).Some? then |assocs[|assocs| - 1].relatedObjects| else 0)
  }

  /** The third loop's counters: the node of each association's target reference gains
      the number of related objects; associations with another kind of notation add
      nothing. */
  function CountObjects(byOid: map<Oid, nat>, size: nat, assocs: seq<ClassificationAssociation>): (counts: seq<int>)
    requires TargetsDeclared(byOid, size, assocs)
    ensures |counts| == size
    ensures forall n :: 0 <= n < size ==> counts[n] == ObjectsOf(byOid, n, assocs)
    decreases |assocs|
  {
    if |assocs| == 0 then seq(size, _ => 0)
    else
      var pre := assocs[..|assocs| - 1];
      var a := assocs[|assocs| - 1];
      assert TargetsDeclared(byOid, size, pre) by {
        assert forall i :: 0 <= i < |pre| ==> pre[i] == assocs[i];
      }
      var counts := CountObjects(byOid, size, pre);
      match TargetOf(a)
      case Some(t) => counts[byOid[t] := counts[byOid[t]] + |a.relatedObjects|]
      case None => counts
  }

  /** No object is lost or counted twice: the counters add up to the objects of all
      associations that target a reference. */
  lemma {:induction false} CountObjectsTotal(byOid: map<Oid, nat>, size: nat, assocs: seq<ClassificationAssociation>)
    requires TargetsDeclared(byOid, size, assocs)
    ensures SumInts(CountObjects(byOid, size, assocs)) == TargetedObjects(assocs)
    decreases |assocs|
  {
    if |assocs| == 0 {
      SumIntsZeros(size);
    } else {
      var pre := assocs[..|assocs| - 1];
      var a := assocs[|assocs| - 1];
      assert TargetsDeclared(byOid, size, pre) by {
        assert forall i :: 0 <= i < |pre| ==> pre[i] == assocs[i];
      }
      CountObjectsTotal(byOid, size, pre);
      if TargetOf(a).Some? {
        var counts := CountObjects(byOid, size, pre);
        SumIntsUpdate(counts, byOid[TargetOf(a).value], |a.relatedObjects|);
      }
    }
  }

  /** The objects the third loop marks as classified: those related by an association
      that targets a reference. */
  function Classified(assocs: seq<ClassificationAssociation>): (s: set<Oid>)
    ensures forall o :: o in s <==>
      exists i :: 0 <= i < |assocs| && TargetOf(assocs[i]).Some? && o in assocs[i].relatedObjects
    decreases |assocs|
  {
    if |assocs| == 0 then {}
    else
      var pre := assocs[..|assocs| - 1];
      var a := assocs[|assocs| - 1];
      assert forall i :: 0 <= i < |pre| ==> pre[i] == assocs[i];
      Classified(pre) + (if TargetOf(a).Some? then set o | o in a.relatedObjects else {})
  }

  /** The key of the reference of `rs` with oid `t`, the last one if several. */
  function RefKeyOf<K>(rs: seq<IfcClassificationReference>, key: ReferenceInfo -> K, t: Oid): (r: Option<K>)
    ensures r.Some? <==> t in RefOids(rs)
    decreases |rs|
  {
    if |rs| == 0 then None
    else
      RefsSnoc([], map[], rs, key);
      if rs[|rs| - 1].oid == t then Some(key(rs[|rs| - 1].info)) else RefKeyOf(rs[..|rs| - 1], key, t)
  }

  lemma {:induction false} RefKeyOfIndex<K>(rs: seq<IfcClassificationReference>, key: ReferenceInfo -> K, j: nat)
    requires j < |rs|
    requires forall i, i' :: 0 <= i < i' < |rs| ==> rs[i].oid != rs[i'].oid
    ensures RefKeyOf(rs, key, rs[j].oid) == Some(key(rs[j].info))
    decreases |rs|
  {
    if j < |rs| - 1 {
      var pre := rs[..|rs| - 1];
      assert pre[j] == rs[j];
      assert forall i :: 0 <= i < |pre| ==> pre[i] == rs[i];
      RefKeyOfIndex(pre, key, j);
    }
  }

  /** Objects association `a` adds to the references with key `k`. */
  function KeyContribution<K(==)>(rs: seq<IfcClassificationReference>, key: ReferenceInfo -> K, k: K, a: ClassificationAssociation): nat {
    match TargetOf(a)
    case Some(t) => if RefKeyOf(rs, key, t) == Some(k) then |a.relatedObjects| else 0
    case None => 0
  }

  /** The objects of all associations whose target reference has key `k`: how many
      objects the references with key `k` classify together. */
  function ObjectsWithKey<K(==)>(rs: seq<IfcClassificationReference>, key: ReferenceInfo -> K, k: K, assocs: seq<ClassificationAssociation>): nat
    decreases |assocs|
  {
    if |assocs| == 0 then 0
    else ObjectsWithKey(rs, key, k, assocs[..|assocs| - 1]) + KeyContribution(rs, key, k, assocs[|assocs| - 1])
  }

  /** A reference oid leads to the node of key `k` exactly when the reference has key `k`. */
  lemma OidLeadsToKeyNode<K>(ri: ReferenceIndex<K>, rs: seq<IfcClassificationReference>, key: ReferenceInfo -> K, k: K, t: Oid)
    requires ValidReferenceIndex(ri, key) && ri.byOid.Keys == RefOids(rs)
    requires RefOidsShareNode(ri, rs, key)
    requires forall i, i' :: 0 <= i < i' < |rs| ==> rs[i].oid != rs[i'].oid
    requires k in ri.byKey && t in ri.byOid
    ensures ri.byOid[t] == ri.byKey[k] <==> RefKeyOf(rs, key, t) == Some(k)
  {
    var j :| 0 <= j < |rs| && rs[j].oid == t;
    RefKeyOfIndex(rs, key, j);
    var k' := key(rs[j].info);
    assert ri.byOid[t] == ri.byKey[k'];
    if ri.byKey[k] == ri.byKey[k'] {
      assert key(ri.refs[ri.byKey[k]].info) == k;
    }
  }

  /** References with equal keys share one counter: the node of key `k` counts the
      objects of every association whose target reference has key `k`. */
  lemma {:induction false} KeyNodeCountsKeyObjects<K>(ri: ReferenceIndex<K>, rs: seq<IfcClassificationReference>,
                                                      key: ReferenceInfo -> K, k: K, assocs: seq<ClassificationAssociation>)
    requires ValidReferenceIndex(ri, key) && ri.byOid.Keys == RefOids(rs)
    requires RefOidsShareNode(ri, rs, key)
    requires forall i, i' :: 0 <= i < i' < |rs| ==> rs[i].oid != rs[i'].oid
    requires k in ri.byKey
    ensures ObjectsOf(ri.byOid, ri.byKey[k], assocs) == ObjectsWithKey(rs, key, k, assocs)
    decreases |assocs|
  {
    if |assocs| > 0 {
      var pre := assocs[..|assocs| - 1];
      var a := assocs[|assocs| - 1];
      assert forall i :: 0 <= i < |pre| ==> pre[i] == assocs[i];
      KeyNodeCountsKeyObjects(ri, rs, key, k, pre);
      if TargetOf(a).Some? && TargetOf(a).value in ri.byOid {
        OidLeadsToKeyNode(ri, rs, key, k, TargetOf(a).value);
      }
    }
  }

  /** After the second and third loops every reference node shows the attributes of
      the first reference with its key and counts the objects of every association
      whose target has that key. */
  lemma NodeCountsKeyObjects<K>(nodes: seq<ClassificationNode>, classOf: map<Oid, nat>, rs: seq<IfcClassificationReference>,
                                key: ReferenceInfo -> K, assocs: seq<ClassificationAssociation>, n: nat)
    requires SourcesDeclared(nodes, classOf, rs)
    requires forall i, i' :: 0 <= i < i' < |rs| ==> rs[i].oid != rs[i'].oid
    requires 1 <= n < |IndexReferences(nodes, classOf, rs, key).refs|
    ensures var ri := IndexReferences(nodes, classOf, rs, key);
      var k := key(ri.refs[n].info);
      && k in RefKeys(rs, key)
      && ri.refs[n].info == rs[FirstRefIndex(rs, key, k)].info
      && ObjectsOf(ri.byOid, n, assocs) == ObjectsWithKey(rs, key, k, assocs)
  {
    var ri := IndexReferences(nodes, classOf, rs, key);
    var k := key(ri.refs[n].info);
    ReferenceNodesKeyed(nodes, classOf, rs, key);
    ReferencesFirstSeen(nodes, classOf, rs, key);
    ReferenceOidsShareNode(nodes, classOf, rs, key);
    KeyNodeCountsKeyObjects(ri, rs, key, k, assocs);
  }

  // ----- Pass 4: the unclassified bucket -----

  /** The number of products (with repetitions, as listed) that the third loop did not
      mark as classified. */
  function Unclassified(products: seq<Oid>, classified: set<Oid>): (n: nat)
    ensures n <= |products|
    ensures n == 0 <==> forall i :: 0 <= i < |products| ==> products[i] in classified
  {
    CountMissing(products, classified)
  }
}
