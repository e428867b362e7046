/** The keys `processClassification` merges classifications and references by, and the
    whole computation with those keys. */
module ClassificationReport {
  import opened Wrappers
  import opened Seqs
  import opened JavaText
  import opened IfcModel
  import opened Classification
  import opened ClassificationOutput

  /** `name_edition_source` followed, when there is an edition date, directly by
      `year_month_day`; Java renders a null attribute as "null". */
  function ClassificationKey(c: ClassificationInfo): string {
    Render(c.name) + "_" + Render(c.edition) + "_" + Render(c.source)
    + match c.editionDate
      case Some(d) => DateSuffix(d)
      case None => ""
  }

  function DateSuffix(d: CalendarDate): string {
    IntToString(d.yearComponent) + "_" + IntToString(d.monthComponent) + "_" + IntToString(d.dayComponent)
  }

  /** `location_itemReference_name`, with "null" for a null attribute. */
  function ReferenceKey(r: ReferenceInfo): string {
    Render(r.location) + "_" + Render(r.itemReference) + "_" + Render(r.name)
  }

  /** The key is not injective: a separator inside a name and a literal "null" each
      merge classifications that differ. */
  lemma ClassificationKeyCollisions()
    ensures ClassificationKey(ClassificationInfo(Some("A_1"), Some("2"), Some("S"), None))
         == ClassificationKey(ClassificationInfo(Some("A"), Some("1_2"), Some("S"), None))
    ensures ClassificationKey(ClassificationInfo(None, Some("E"), Some("S"), None))
         == ClassificationKey(ClassificationInfo(Some("null"), Some("E"), Some("S"), None))
  {
    assert ClassificationKey(ClassificationInfo(Some("A_1"), Some("2"), Some("S"), None)) == "A_1_2_S";
    assert ClassificationKey(ClassificationInfo(Some("A"), Some("1_2"), Some("S"), None)) == "A_1_2_S";
    assert ClassificationKey(ClassificationInfo(None, Some("E"), Some("S"), None)) == "null_E_S";
    assert ClassificationKey(ClassificationInfo(Some("null"), Some("E"), Some("S"), None)) == "null_E_S";
  }

  /** The edition date is glued onto the source without a separator, so a dated
      classification and an undated one whose source ends in the date share a key. */
  lemma DateKeyCollision(name: Option<string>, edition: Option<string>, source: string, d: CalendarDate)
    ensures ClassificationKey(ClassificationInfo(name, edition, Some(source), Some(d)))
         == ClassificationKey(ClassificationInfo(name, edition, Some(source + DateSuffix(d)), None))
  {
  }

  /** Classifications that agree on name, edition and source but carry different edition
      dates get different keys: the date components are rendered as numbers joined by
      "_", and a rendered number holds no "_". */
  lemma DistinctDatesDistinctKeys(name: Option<string>, edition: Option<string>, source: Option<string>,
                                  d1: CalendarDate, d2: CalendarDate)
    requires d1 != d2
    ensures ClassificationKey(ClassificationInfo(name, edition, source, Some(d1)))
         != ClassificationKey(ClassificationInfo(name, edition, source, Some(d2)))
  {
    var prefix := Render(name) + "_" + Render(edition) + "_" + Render(source);
    var k1 := ClassificationKey(ClassificationInfo(name, edition, source, Some(d1)));
    var k2 := ClassificationKey(ClassificationInfo(name, edition, source, Some(d2)));
    if k1 == k2 {
      assert k1 == prefix + DateSuffix(d1) && k2 == prefix + DateSuffix(d2);
      assert DateSuffix(d1) == k1[|prefix|..] == DateSuffix(d2);
      SameSuffixSameDate(d1, d2);
    }
  }

  /** The date suffix determines the date. */
  lemma SameSuffixSameDate(d1: CalendarDate, d2: CalendarDate)
    requires DateSuffix(d1) == DateSuffix(d2)
    ensures d1 == d2
  {
    var y1, m1, dd1 := IntToString(d1.yearComponent), IntToString(d1.monthComponent), IntToString(d1.dayComponent);
    var y2, m2, dd2 := IntToString(d2.yearComponent), IntToString(d2.monthComponent), IntToString(d2.dayComponent);
    IntToStringHasNoSeparator(d1.yearComponent);
    IntToStringHasNoSeparator(d2.yearComponent);
    IntToStringHasNoSeparator(d1.monthComponent);
    IntToStringHasNoSeparator(d2.monthComponent);
    assert DateSuffix(d1) == y1 + "_" + (m1 + "_" + dd1);
    assert DateSuffix(d2) == y2 + "_" + (m2 + "_" + dd2);
    SplitAtSeparator(y1, m1 + "_" + dd1, y2, m2 + "_" + dd2);
    SplitAtSeparator(m1, dd1, m2, dd2);
    IntToStringInjective(d1.yearComponent, d2.yearComponent);
    IntToStringInjective(d1.monthComponent, d2.monthComponent);
    IntToStringInjective(d1.dayComponent, d2.dayComponent);
  }

  /** `processClassification` with the service's keys: one entry per distinct
      classification key, then NO_CLASSIFICATION. */
  function ProcessClassification(cs: seq<IfcClassification>, rs: seq<IfcClassificationReference>,
                                 assocs: seq<ClassificationAssociation>, products: seq<Oid>): (r: seq<ClassificationEntry>)
    requires WellFormed(cs, rs, assocs)
    ensures |r| == |ClassKeys(cs, ClassificationKey)| + 1
    ensures r[|r| - 1].info == NoClassification
    ensures |r[|r| - 1].references| >= 1
    ensures r[|r| - 1].references[0] == ReferenceEntry(NoClassificationReferenceInfo, Unclassified(products, Classified(assocs)))
  {
    ReportBucket(cs, rs, assocs, products, ClassificationKey, ReferenceKey);
    Report(cs, rs, assocs, products, ClassificationKey, ReferenceKey)
  }

  /** A product that no classification association relates adds one to
      NO_CLASSIFICATION_REFERENCE and changes nothing else in the report. */
  lemma UnclassifiedProductCountsOnce(cs: seq<IfcClassification>, rs: seq<IfcClassificationReference>,
                                      assocs: seq<ClassificationAssociation>, products: seq<Oid>, o: Oid)
    requires WellFormed(cs, rs, assocs)
    requires o !in Classified(assocs)
    ensures var r := ProcessClassification(cs, rs, assocs, products + [o]);
      var r0 := ProcessClassification(cs, rs, assocs, products);
      && |r| == |r0|
      && (forall i :: 0 <= i < |r| - 1 ==> r[i] == r0[i])
      && |r[|r| - 1].references| == |r0[|r0| - 1].references|
      && r[|r| - 1].references[0].numberOfObjects == r0[|r0| - 1].references[0].numberOfObjects + 1
      && r[|r| - 1].references[1..] == r0[|r0| - 1].references[1..]
  {
    CountMissingSnoc(products, o, Classified(assocs));
    OnlyBucketReadsProducts(cs, rs, assocs, products, products + [o], ClassificationKey, ReferenceKey);
  }
}
