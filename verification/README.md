# IfcAnalytics, modelled in Dafny

IfcAnalytics is a BIMserver "BIM bot". It reads a loaded IFC model and returns a JSON report with these sections:

- **project**: the spatial tree of sites, buildings, storeys, spaces and zones.
- **materials**: each material with the number of products related to it, then a `NO_MATERIAL` entry.
- **classifications**: classifications merged by a textual key. The classification references are merged by key and nested under the classification that first introduced them. Each reference carries an object count, and a `NO_CLASSIFICATION` entry closes the list.
- **aggregations**:
  - per-type statistics with truncated integer averages;
  - the ten most complex objects, by triangles per cubic metre;
  - the ten objects with the most properties;
  - whole-model totals and ratios.
- **checks**: whether exactly one unit cube sits near the origin. The service's `cubesNearZero` counter decides this, and it is never reset between runs.

This project models the report as pure functions over an immutable description of the model. It states what each section contains and proves that.

- **Model graph.** Objects are records. The Java object references are oids, and the relations are sequences in model order.
- **Exceptions.** A Java exception that the code can throw becomes a `Failure` of `Wrappers.Result`.
- **The service object.** `Analytics.Service` holds the `cubesNearZero` counter, which `Analytics.RunBimBot` threads through.

The files and what each holds:

- `wrappers.dfy`: `Option`, `Result` and the two Java exceptions.
- `seqs.dfy`: sums, filters and counts over sequences.
- `ifc_model.dfy`: the model graph and `putNameAndGuid`.
- `object_details.dfy`: the per-product record `ObjectDetails`.
- `cube_check.dfy`: the vertex scan.
- `ranking.dfy`: the descending sorts and the top-k cut.
- `aggregation.dfy`: `processAggregations`.
- `java_text.dfy`: Java's rendering of `null` and of integers, used in the keys.
- `classification.dfy`, `classification_output.dfy` and `classification_report.dfy`: the passes of `processClassification`, the report they produce, and the report with the service's two string keys.
- `materials.dfy`: `processMaterials`, both as written and corrected (see Findings).
- `spatial.dfy`: `processProject`, `processSite` and `processBuilding`.
- `analytics.dfy`: `runBimBot` and the counter it keeps.

The classification passes are generic in their key functions. Their properties therefore hold for every key, and `ClassificationReport` supplies the keys the service builds.

## Model

Every source path below is under `IfcAnalytics/src/org/opensourcebim/ifcanalytics/`.

| member | source | states |
|---|---|---|
| Details.NewDetails | IfcAnalytics/src/org/opensourcebim/ifcanalytics/ObjectDetails.java:7-14 | A new record keeps its product. Its triangle count, volume and property count start at the Java defaults of zero. |
| Details.TrianglesPerVolume | IfcAnalytics/src/org/opensourcebim/ifcanalytics/ObjectDetails.java:36-41 | The density is 0 exactly when the volume or the triangle count is 0. Otherwise density × volume equals the triangle count, so nothing is ever divided by zero. |
| Details.SettersAndGetters | IfcAnalytics/src/org/opensourcebim/ifcanalytics/ObjectDetails.java:16-49 | After any sequence of setter calls, each getter returns the argument of the last call to its own setter, or the earlier value if that setter was never called. The product never changes. |
| Details.FreshRecordHasNoDensity | IfcAnalytics/src/org/opensourcebim/ifcanalytics/ObjectDetails.java:12-41 | A record on which `setNrTriangles` was never called has density 0, whatever volume or property count was set. |
| IfcModel.NameAndGuid | IfcAnalytics/src/org/opensourcebim/ifcanalytics/IfcAnalyticsService.java:393-406 | `name` is present exactly when the name is not null, and `guid` exactly when the object has a non-null GlobalId. Both carry the object's values, `name` comes before `guid`, and no other key is written. |
| CubeCheck.AllVerticesWithinOneMeterOfZero | IfcAnalytics/src/org/opensourcebim/ifcanalytics/IfcAnalyticsService.java:361-391 | The scan stops at the first value out of range. With a vertex buffer it answers true iff every coordinate lies in [-1, 1] m. Without one, it answers true iff all six bounds lie in [-1000, 1000] mm. |
| Aggregation.RecordOf | IfcAnalytics/src/org/opensourcebim/ifcanalytics/IfcAnalyticsService.java:212-239 | A product's record holds its property count. It also holds the geometry's triangle count and volume when the product has geometry, and zero for both otherwise. |
| Aggregation.TruncDiv | IfcAnalytics/src/org/opensourcebim/ifcanalytics/IfcAnalyticsService.java:245-249 | Java integer division by the object count: the quotient times n is within n of the total, rounding toward zero for either sign. |
| Aggregation.StatsOf | IfcAnalytics/src/org/opensourcebim/ifcanalytics/IfcAnalyticsService.java:242-250 | `numberOfObjects` is the number of products of the type. `averageNumberOfTriangles` is present exactly when the type's triangle total is positive. Each average is the truncated mean of the per-product counts. |
| Aggregation.AddType | IfcAnalytics/src/org/opensourcebim/ifcanalytics/IfcAnalyticsService.java:198-255 | A type with no products leaves the state unchanged (`continue`). Any other type sets its own per-type entry, appends its products' records, and adds its size to the object total. |
| Aggregation.AggregateTypes | IfcAnalytics/src/org/opensourcebim/ifcanalytics/IfcAnalyticsService.java:198-255 | `perType` has exactly the listed types that have products, each with that type's statistics. The records are those of the products grouped type by type. The object total is the number of grouped products. |
| Aggregation.AggregateSums | IfcAnalytics/src/org/opensourcebim/ifcanalytics/IfcAnalyticsService.java:206-254 | The triangle, property, pset and relation totals are the sums over the types' products. The cube counter grows by the number of those products that are unit cubes near the origin. |
| Aggregation.SpaceTotals | IfcAnalytics/src/org/opensourcebim/ifcanalytics/IfcAnalyticsService.java:231-234 | With each type listed once, `totalSpaceM2` and `totalSpaceM3` are the area and volume summed over the `IfcSpace` products, and 0 when `IfcSpace` is not listed. No other type contributes. |
| Aggregation.TotalObjectsIsSumOfPerType | IfcAnalytics/src/org/opensourcebim/ifcanalytics/IfcAnalyticsService.java:201-250 | `totalNrOfObjects` equals the per-type `numberOfObjects` summed over the listed types, and equals the number of records that are ranked. |
| Aggregation.GroupedIsPermutation | IfcAnalytics/src/org/opensourcebim/ifcanalytics/IfcAnalyticsService.java:198-214 | When the type list is duplicate-free and names every product's type, grouping by type is a permutation of the products: none is lost or counted twice. |
| Aggregation.AggregationCoversModel | IfcAnalytics/src/org/opensourcebim/ifcanalytics/IfcAnalyticsService.java:198-255 | Under the same coverage condition, the records are a permutation of the products. The object count is the number of products, and the triangle, property, pset and relation totals are sums over all products. The space area and volume totals are sums over the `IfcSpace` products. The cube counter grows by exactly the number of cubes near zero. |
| Aggregation.TopTenMostComplexSpec | IfcAnalytics/src/org/opensourcebim/ifcanalytics/IfcAnalyticsService.java:257-281 | `topTenMostComplexObjects` holds min(10, n) records in non-increasing density, all taken from the records. No record left out is denser than any listed one. |
| Aggregation.TopTenMostPropertiesSpec | IfcAnalytics/src/org/opensourcebim/ifcanalytics/IfcAnalyticsService.java:283-298 | `topTenMostProperties` holds min(10, n) records in non-increasing property count, all taken from the records. No record left out has more properties than any listed one. |
| Aggregation.Ratio | IfcAnalytics/src/org/opensourcebim/ifcanalytics/IfcAnalyticsService.java:313-334 | A model-wide average is present exactly when its denominator is not 0, and then average × denominator equals the numerator. |
| Aggregation.CompleteModelOf | IfcAnalytics/src/org/opensourcebim/ifcanalytics/IfcAnalyticsService.java:301-336 | `completeModel` carries the seven totals as accumulated. Objects and triangles per m³ are present exactly when the space volume is not 0, properties per object exactly when there is an object, and triangles per m² exactly when the space area is not 0. Each present average times its denominator gives its numerator. |
| Aggregation.MapComplex | IfcAnalytics/src/org/opensourcebim/ifcanalytics/IfcAnalyticsService.java:264-280 | One `topTenMostComplexObjects` entry per ranked record, in order, with the record's type, its product's name and guid (`putNameAndGuid`), and its density. The triangle count and the volume appear exactly when they are not 0. |
| Aggregation.MapProperties | IfcAnalytics/src/org/opensourcebim/ifcanalytics/IfcAnalyticsService.java:290-298 | One `topTenMostProperties` entry per ranked record, in order, with the record's type, its product's name and guid (`putNameAndGuid`), and its property count. |
| Aggregation.ProcessAggregations | IfcAnalytics/src/org/opensourcebim/ifcanalytics/IfcAnalyticsService.java:183-339 | The node holds the pass's per-type entries and the `completeModel` of its totals. Its rankings are the entries of the top ten records by density and by property count, so the top-ten properties of `Aggregation.TopTenMostComplexSpec` and `Aggregation.TopTenMostPropertiesSpec` hold of them. Each ranking has min(10, n) entries, the first in non-increasing density and the second in non-increasing property count. The returned counter is the pass's counter. |
| Aggregation.AggregationsReport | IfcAnalytics/src/org/opensourcebim/ifcanalytics/IfcAnalyticsService.java:183-339 | With every product type listed once, `completeModel`'s totals are sums over all products and over the `IfcSpace` products. The property average is present exactly when there is a product, each ranking lists min(10, n) entries, and the counter grows by the number of cubes near zero. |
| Aggregation.RankingsReport | IfcAnalytics/src/org/opensourcebim/ifcanalytics/IfcAnalyticsService.java:257-298 | With every product type listed once, each entry of either ranking shows the record of one of the products. A product whose entry is not listed is no denser, or has no more properties, than any listed entry. |
| Aggregation.RecordsOfProducts | IfcAnalytics/src/org/opensourcebim/ifcanalytics/IfcAnalyticsService.java:198-214 | With every product type listed once, each product gets its record, and every record is the record of one of the products. |
| Ranking.Insert | IfcAnalytics/src/org/opensourcebim/ifcanalytics/IfcAnalyticsService.java:283-288 | Inserting into a descending list keeps it descending and adds exactly the new element. |
| Ranking.SortDesc | IfcAnalytics/src/org/opensourcebim/ifcanalytics/IfcAnalyticsService.java:257-262 | The comparator sort returns a permutation of its input in non-increasing key order. |
| Ranking.TopKSpec | IfcAnalytics/src/org/opensourcebim/ifcanalytics/IfcAnalyticsService.java:264-266 | The `i < 10 && i < size` loop takes min(k, n) elements in descending order, all from the input. No element left out outranks one that is kept. |
| JavaText.NatToStringRoundTrip | IfcAnalytics/src/org/opensourcebim/ifcanalytics/IfcAnalyticsService.java:434 | The decimal text of a date component reads back as that number. |
| JavaText.IntToStringInjective | IfcAnalytics/src/org/opensourcebim/ifcanalytics/IfcAnalyticsService.java:434 | Different integers render as different text. |
| JavaText.SplitAtSeparator | IfcAnalytics/src/org/opensourcebim/ifcanalytics/IfcAnalyticsService.java:434 | Two key parts joined by `_` split back uniquely when the first part holds no `_`, which holds for every rendered integer. |
| Classification.IndexClassifications | IfcAnalytics/src/org/opensourcebim/ifcanalytics/IfcAnalyticsService.java:415-449 | After the first loop, the key map has exactly the classifications' keys and the oid map exactly their oids. Each oid leads to a node carrying a key. |
| Classification.StepClassification | IfcAnalytics/src/org/opensourcebim/ifcanalytics/IfcAnalyticsService.java:442-448 | One iteration maps the oid to the node of its key. A known key reuses its node and changes no node. A new key appends a node with this classification's attributes. Every other key and oid keeps its node. |
| Classification.ClassificationNodePerKey | IfcAnalytics/src/org/opensourcebim/ifcanalytics/IfcAnalyticsService.java:442-447 | The report gets exactly one classification node per distinct key. |
| Classification.ClassificationNodesFirstSeen | IfcAnalytics/src/org/opensourcebim/ifcanalytics/IfcAnalyticsService.java:442-447 | Each node shows the attributes of the first classification with its key. The nodes appear in order of first appearance. |
| Classification.ClassificationOidsShareNode | IfcAnalytics/src/org/opensourcebim/ifcanalytics/IfcAnalyticsService.java:448 | Every classification's oid leads to the node of its own key, even when a classification met earlier created that node. |
| Classification.OwnerOf | IfcAnalytics/src/org/opensourcebim/ifcanalytics/IfcAnalyticsService.java:464-470 | A reference has an owning node exactly when its ReferencedSource is set. The owner is the node the source's oid leads to. |
| Classification.StepReference | IfcAnalytics/src/org/opensourcebim/ifcanalytics/IfcAnalyticsService.java:463-493 | One iteration of the reference loop. A known key reuses its node and nests nothing. A new key appends a node with this reference's attributes and owner. The oid is then mapped to the key's node, and every other key and oid is left alone. |
| Classification.IndexReferences | IfcAnalytics/src/org/opensourcebim/ifcanalytics/IfcAnalyticsService.java:461-493 | After the second loop, the key map has exactly the references' keys and the oid map exactly their oids. The classification nodes are unchanged apart from their lists. |
| Classification.ReferenceNodePerKey | IfcAnalytics/src/org/opensourcebim/ifcanalytics/IfcAnalyticsService.java:456-490 | There is one reference node per distinct reference key, plus `NO_CLASSIFICATION_REFERENCE`. |
| Classification.ReferencesFirstSeen | IfcAnalytics/src/org/opensourcebim/ifcanalytics/IfcAnalyticsService.java:474-490 | Each key's node carries the attributes and owner of the first reference with that key. |
| Classification.ReferenceNodesKeyed | IfcAnalytics/src/org/opensourcebim/ifcanalytics/IfcAnalyticsService.java:474-488 | Every reference node is the node its own key maps to, so no key has two nodes. |
| Classification.ReferencesNested | IfcAnalytics/src/org/opensourcebim/ifcanalytics/IfcAnalyticsService.java:489 | Each list holds exactly the nodes whose owner it belongs to, in creation order, with none twice. |
| Classification.ReferenceListsBounded | IfcAnalytics/src/org/opensourcebim/ifcanalytics/IfcAnalyticsService.java:451-459 | Every listed node exists, and the list under `NO_CLASSIFICATION` starts with `NO_CLASSIFICATION_REFERENCE`. |
| Classification.BucketListedOnce | IfcAnalytics/src/org/opensourcebim/ifcanalytics/IfcAnalyticsService.java:456-459 | `NO_CLASSIFICATION_REFERENCE` appears only at the head of the `NO_CLASSIFICATION` list. |
| Classification.ReferenceKeyListed | IfcAnalytics/src/org/opensourcebim/ifcanalytics/IfcAnalyticsService.java:466-489 | A key's node is listed under the owner of the first reference with that key, or under `NO_CLASSIFICATION` when that reference has no source. |
| Classification.ReferenceOidsShareNode | IfcAnalytics/src/org/opensourcebim/ifcanalytics/IfcAnalyticsService.java:492 | Every reference's oid leads to the node of its own key. |
| Classification.CountObjects | IfcAnalytics/src/org/opensourcebim/ifcanalytics/IfcAnalyticsService.java:497-508 | Each node's count is the total number of related objects of the associations whose target reference leads to it. Associations with another kind of notation add nothing. |
| Classification.CountObjectsTotal | IfcAnalytics/src/org/opensourcebim/ifcanalytics/IfcAnalyticsService.java:497-508 | The counts add up to the related objects of all associations that target a reference: none is lost or counted twice. |
| Classification.Classified | IfcAnalytics/src/org/opensourcebim/ifcanalytics/IfcAnalyticsService.java:495-505 | An object is marked classified exactly when an association that targets a reference relates it. |
| Classification.KeyNodeCountsKeyObjects | IfcAnalytics/src/org/opensourcebim/ifcanalytics/IfcAnalyticsService.java:499-506 | The count on a key's node is the number of objects of the associations whose reference has that key. |
| Classification.NodeCountsKeyObjects | IfcAnalytics/src/org/opensourcebim/ifcanalytics/IfcAnalyticsService.java:472-506 | Every reference node shows the first reference with its key, and the object count of all references sharing that key. |
| Classification.Unclassified | IfcAnalytics/src/org/opensourcebim/ifcanalytics/IfcAnalyticsService.java:510-514 | The bucket is 0 exactly when every product is marked classified, and it never exceeds the number of products. |
| ClassificationOutput.Counters | IfcAnalytics/src/org/opensourcebim/ifcanalytics/IfcAnalyticsService.java:456-514 | The bucket's counter is the number of unclassified products, and every other node's counter is its associations' object count. |
| ClassificationOutput.CountersTotal | IfcAnalytics/src/org/opensourcebim/ifcanalytics/IfcAnalyticsService.java:495-514 | All counters add up to the targeted objects plus the unclassified products. |
| ClassificationOutput.ReportEntries | IfcAnalytics/src/org/opensourcebim/ifcanalytics/IfcAnalyticsService.java:439-459 | There is one entry per classification node, in order, each with the entries of its list. Then comes `NO_CLASSIFICATION` with the unowned list. |
| ClassificationOutput.ReportBucket | IfcAnalytics/src/org/opensourcebim/ifcanalytics/IfcAnalyticsService.java:451-514 | The last entry's first reference is `NO_CLASSIFICATION_REFERENCE`, with the number of unclassified products. |
| ClassificationOutput.ReportClassInfos | IfcAnalytics/src/org/opensourcebim/ifcanalytics/IfcAnalyticsService.java:415-449 | The entries before `NO_CLASSIFICATION` show the classification nodes' attributes, in node order. |
| ClassificationOutput.ReportFirstSeen | IfcAnalytics/src/org/opensourcebim/ifcanalytics/IfcAnalyticsService.java:442-447 | Each classification entry shows the first classification with its key. The entries are ordered by that first appearance. |
| ClassificationOutput.ReportReferenceEntries | IfcAnalytics/src/org/opensourcebim/ifcanalytics/IfcAnalyticsService.java:472-506 | Every reference entry except the bucket shows the first reference with its key, and the objects of all associations whose reference has that key. |
| ClassificationOutput.ReportListsEveryReference | IfcAnalytics/src/org/opensourcebim/ifcanalytics/IfcAnalyticsService.java:463-490 | Every reference key appears in the report with the first such reference's attributes. It sits under the entry of that reference's source classification, or under `NO_CLASSIFICATION` when there is no source. |
| ClassificationReport.ClassificationKeyCollisions | IfcAnalytics/src/org/opensourcebim/ifcanalytics/IfcAnalyticsService.java:416 | The key is not injective. A `_` inside a name, or a literal "null" attribute, merges classifications that differ. |
| ClassificationReport.DateKeyCollision | IfcAnalytics/src/org/opensourcebim/ifcanalytics/IfcAnalyticsService.java:434 | The edition date is appended with no separator, so a dated classification shares its key with an undated one whose source ends in that date text. |
| ClassificationReport.DistinctDatesDistinctKeys | IfcAnalytics/src/org/opensourcebim/ifcanalytics/IfcAnalyticsService.java:434 | Classifications with the same name, edition and source but different edition dates get different keys. |
| ClassificationReport.ProcessClassification | IfcAnalytics/src/org/opensourcebim/ifcanalytics/IfcAnalyticsService.java:408-517 | With the service's keys, the report has one entry per distinct classification key and then `NO_CLASSIFICATION`. That entry's first reference counts the unclassified products. |
| ClassificationReport.UnclassifiedProductCountsOnce | IfcAnalytics/src/org/opensourcebim/ifcanalytics/IfcAnalyticsService.java:510-514 | An extra product that no classification association relates adds exactly one to `NO_CLASSIFICATION_REFERENCE`. Every classification entry, and every other reference under `NO_CLASSIFICATION`, stays exactly as it was. |
| ClassificationOutput.OnlyBucketReadsProducts | IfcAnalytics/src/org/opensourcebim/ifcanalytics/IfcAnalyticsService.java:495-514 | The product list is read only by the bucket's counter: for any keys, two product lists give reports that agree everywhere except in `NO_CLASSIFICATION`'s first reference. |
| Seqs.CountMissing | IfcAnalytics/src/org/opensourcebim/ifcanalytics/IfcAnalyticsService.java:559-564 | The count of products outside the marked set is at most the number of products. It is 0 exactly when every product is marked. |
| Materials.MaterialIndex | IfcAnalytics/src/org/opensourcebim/ifcanalytics/IfcAnalyticsService.java:524-530 | The oid map has exactly the materials' oids. An oid shared by several materials leads to the last of them, because `put` overwrites. |
| Materials.LayerMaterials | IfcAnalytics/src/org/opensourcebim/ifcanalytics/IfcAnalyticsService.java:546-548 | A material is targeted as many times as it is the material of a layer in the set. |
| Materials.AddToTargets | IfcAnalytics/src/org/opensourcebim/ifcanalytics/IfcAnalyticsService.java:540-549 | Each material node grows by the association's object count, once per target that leads to it. |
| Materials.WithMaterial | IfcAnalytics/src/org/opensourcebim/ifcanalytics/IfcAnalyticsService.java:532-538 | An object is marked exactly when some material association relates it, whatever the association's material select is. |
| Materials.ProcessMaterials | IfcAnalytics/src/org/opensourcebim/ifcanalytics/IfcAnalyticsService.java:519-568 | There is one entry per material, in model order, with its name when it has one and never a guid, since an IfcMaterial has no GlobalId. Then comes `NO_MATERIAL`, counting the products that no association relates. |
| Materials.HitsAreOccurrences | IfcAnalytics/src/org/opensourcebim/ifcanalytics/IfcAnalyticsService.java:541-548 | The number of targets that lead to a material's node is the number of times its oid occurs among the targets. |
| Materials.CountsAreTallies | IfcAnalytics/src/org/opensourcebim/ifcanalytics/IfcAnalyticsService.java:534-554 | The counter an oid leads to equals the sum, over associations, of their object count times how often the material is their target. |
| Materials.ShadowedStaysZero | IfcAnalytics/src/org/opensourcebim/ifcanalytics/IfcAnalyticsService.java:524-530 | A material whose oid a later material reuses keeps `nrOfProducts` 0. |
| Materials.MaterialEntryCount | IfcAnalytics/src/org/opensourcebim/ifcanalytics/IfcAnalyticsService.java:524-554 | A material entry's `nrOfProducts` is the tally for its oid when it is the last material with that oid, and 0 otherwise. |
| Materials.AddToTargetsTotal | IfcAnalytics/src/org/opensourcebim/ifcanalytics/IfcAnalyticsService.java:540-549 | One association adds its object count times its number of targets to the sum of all counters. |
| Materials.CountsTotal | IfcAnalytics/src/org/opensourcebim/ifcanalytics/IfcAnalyticsService.java:534-554 | All material counters add up to the object-to-target links of all associations: nothing is lost. |
| Materials.OtherSelectOnlyMarks | IfcAnalytics/src/org/opensourcebim/ifcanalytics/IfcAnalyticsService.java:535-553 | An association whose material select is neither a material nor a layer set usage changes no material's count. It still takes its objects out of `NO_MATERIAL`. |
| Materials.UnassociatedProductCountsOnce | IfcAnalytics/src/org/opensourcebim/ifcanalytics/IfcAnalyticsService.java:556-565 | An extra product that no association relates adds exactly one to `NO_MATERIAL` and changes no material entry. |
| Materials.RepeatedLayerCountsTwice | IfcAnalytics/src/org/opensourcebim/ifcanalytics/IfcAnalyticsService.java:546-549 | A layer set that uses a material twice counts each of its objects twice for that material. |
| Materials.TargetsAsWritten | IfcAnalytics/src/org/opensourcebim/ifcanalytics/IfcAnalyticsService.java:539-553 | As written, resolving the targets throws exactly when a layer set usage has a layer without a material. Otherwise it yields the corrected targets. |
| Materials.CountMaterialsAsWritten | IfcAnalytics/src/org/opensourcebim/ifcanalytics/IfcAnalyticsService.java:534-554 | As written, the association loop throws exactly when some association has a layer without a material. Otherwise its counters equal the corrected ones. |
| Materials.ProcessMaterialsAsWritten | IfcAnalytics/src/org/opensourcebim/ifcanalytics/IfcAnalyticsService.java:519-568 | As written, `processMaterials` fails exactly on a layer without a material. Otherwise it returns the corrected section. |
| Materials.UnsetLayerThrows | IfcAnalytics/src/org/opensourcebim/ifcanalytics/IfcAnalyticsService.java:546-548 | A wall whose layer set has one layer with material m and one without makes the as-written section throw. The corrected section counts the wall once for m. |
| Spatial.ProcessSite | IfcAnalytics/src/org/opensourcebim/ifcanalytics/IfcAnalyticsService.java:685-700 | The only exception `processSite` can raise is the cast of a child to IfcBuilding. |
| Spatial.SiteBuildings | IfcAnalytics/src/org/opensourcebim/ifcanalytics/IfcAnalyticsService.java:685-700 | A site succeeds exactly when every decomposed child is a building. It then lists each child's building node in order, with the site's name and guid. |
| Spatial.ProcessProject | IfcAnalytics/src/org/opensourcebim/ifcanalytics/IfcAnalyticsService.java:570-620 | With no project the section is absent. Otherwise it succeeds exactly when every site succeeds, and lists each site's node in decomposition order. |
| Spatial.StoreysAreStoreyChildren | IfcAnalytics/src/org/opensourcebim/ifcanalytics/IfcAnalyticsService.java:634-639 | A building lists exactly its decomposed children that are storeys, in decomposition order, and nothing else. |
| Spatial.SpacesAreSpaceChildren | IfcAnalytics/src/org/opensourcebim/ifcanalytics/IfcAnalyticsService.java:638-648 | A storey node reports the storey's decomposed-object count. It lists exactly the storey's decomposed children that are spaces, in order. |
| Spatial.ZonesAreZoneAssignments | IfcAnalytics/src/org/opensourcebim/ifcanalytics/IfcAnalyticsService.java:651-671 | `m2` and `m3` are present exactly when the space has geometry. `zones` is present exactly when some assignment assigns the space to a zone, and it lists exactly those zones, in order. |
| Spatial.SubSiteThrows | IfcAnalytics/src/org/opensourcebim/ifcanalytics/IfcAnalyticsService.java:693-694 | A site decomposed into a building and a non-building throws ClassCastException. |
| Analytics.RunBimBot | IfcAnalytics/src/org/opensourcebim/ifcanalytics/IfcAnalyticsService.java:131-151 | A run fails exactly when the model has no header or no header time stamp (the header pass throws a NullPointerException, line 139 calling 730), when the project walk fails, or when some layer-set usage has a layer without a material (the materials pass throws a NullPointerException, line 141 calling 546-548). A failed run leaves the counter alone. Otherwise the report holds the project, materials, classification and aggregation sections, and the counter has been through the aggregation pass. `hasCubeNearZero` then says whether the counter equals 1. |
| Analytics.RunCountsCubes | IfcAnalytics/src/org/opensourcebim/ifcanalytics/IfcAnalyticsService.java:179-226 | A successful run adds the number of cubes near zero to the instance's counter. The flag is set exactly when the old count plus that number is 1. |
| Analytics.FreshServiceFlagsOneCube | IfcAnalytics/src/org/opensourcebim/ifcanalytics/IfcAnalyticsService.java:179-226 | On a fresh instance, the flag says that exactly one product is a unit cube near the origin. |
| Analytics.SecondRunClearsFlag | IfcAnalytics/src/org/opensourcebim/ifcanalytics/IfcAnalyticsService.java:83-226 | The counter is never reset. A model with exactly one cube near zero, whose run does not throw, is flagged on its first run and not on a second run on the same instance. |

## Left out

- User settings (`getUserSettingsDefinition`): a settings schema that nothing in the report reads.
- JSON serialisation of the report, the contents of the IFC header section and the output wrapper in `runBimBot`: these are output formatting. The header is reduced to whether it and its time stamp are present, since that is what decides whether the header pass throws.
- Clash detection (`callClashDetectionService` and the `clashes` key of `checks`): it is a network call to another service.
- Unit detection and conversion (`IfcUtils.getLengthUnit`, `getAreaUnit`, `getVolumeUnit` and the `convert` calls): these are foreign code. Geometry is taken already in metres, square metres and cubic metres, with bounds in millimetres. The `units` listing of the project node is left out as well.
- `getArea`'s parsing of the geometry's additional JSON data: this is reduced to an optional area override that takes precedence over the polygon area.
- `IfcUtils.getNrOfPSets`, `getNrOfProperties`, `getNrOfRelations` and `countDecomposed`: these are foreign code, so their results are inputs of the model.
- The EMF reflection that enumerates product classes and reads features: the product types and the children of each decomposition are given as sequences.
- `float` and `double` arithmetic: modelled as exact reals, with no rounding, no NaN and no infinity. So the `Double.isFinite` and `Float.isNaN` guards always pass, and the `(float)` cast in `getTrianglesPerVolume` is not modelled.
- 32-bit `int` overflow of the counters and totals: integers are unbounded.
- Stability of `List.sort`: the second ranking sorts the list left by the first, and is modelled as such. Which of two equal-keyed records comes first is not stated.
- ClassificationReport.ProcessClassification: it requires `ClassificationOutput.WellFormed`. That means every reference's source is one of the model's classifications, every association's target is one of its references, and oids are unique per entity type. A loaded BIMserver model guarantees all three. A missing source or target would make the source throw a NullPointerException.
- Materials.ProcessMaterials: it requires that every material an association names is one of the model's materials (`Materials.TargetsDeclared`). Java references cannot dangle in a loaded model; where one did, the source would throw a NullPointerException.
- Spatial.ProcessProject: it models every child of the project's decomposition as a site. The source calls `processSite` on any child, and a non-site child is walked the same way.

## Findings

| source | as written | input that shows it | evidently intended | confidence | as-written member | corrected member |
|---|---|---|---|---|---|---|
| IfcAnalytics/src/org/opensourcebim/ifcanalytics/IfcAnalyticsService.java:546-548 | For each layer of a layer set usage, the loop dereferences the layer's material, which is optional in IFC2x3. | An association relating a wall to a layer set usage with layers [material m, no material] | Skip layers without a material and count the others | not executed | Materials.ProcessMaterialsAsWritten (exhibited by Materials.UnsetLayerThrows) | Materials.ProcessMaterials (with Materials.MaterialEntryCount and Materials.CountsTotal) |

`Analytics.RunBimBot` runs the materials pass as written, as the service does, so a model with such a layer makes the whole run fail. When the run succeeds, its materials section is stated through `Materials.ProcessMaterials`, because the two definitions agree whenever the source does not throw. The material properties are proved about `Materials.ProcessMaterials`.
