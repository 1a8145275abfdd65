/** The document migration: legacy document records are rewritten into the
    normalised schema. A lookup index `system|code -> id` is built from the
    classification catalogue, each document's free-text classification codes
    are parsed and resolved against it, its German retention phrase is parsed
    into a number of years, and its text fields become four-language
    records. */
module DocumentMigration {
  import opened Wrappers
  import opened JsString
  import opened I18n
  import opened Retention
  import opened ClassificationIndex
  import opened ClassificationRefs

  /** A legacy document; `None` stands for a missing (or null) field, and for
      a list field also for a value that is not an array. */
  datatype LegacyDocument = LegacyDocument(
    id: string,
    version: Option<string>,
    lastChange: Option<string>,
    title: Option<string>,
    category: Option<string>,
    description: Option<string>,
    image: Option<string>,
    tags: Option<seq<string>>,
    phases: Option<seq<string>>,
    formats: Option<seq<string>>,
    retention: Option<string>,
    classifications: Option<seq<SystemCodes>>)

  /** A document in the normalised schema (field names as written out). */
  datatype Document = Document(
    id: string,
    code: string,
    version: string,
    last_change: string,
    name: I18nText,
    image: string,
    domain: I18nText,
    description: I18nText,
    tags: seq<I18nText>,
    phases: seq<string>,
    formats: seq<string>,
    retention: Option<nat>,
    related_elements: seq<Reference>,
    related_classifications: seq<Reference>)


  /** `out` is what `migrateDocument` makes of `doc`, given the fresh id the
      call generates and the current date. */
  ghost predicate IsMigratedDocument(out: Document, doc: LegacyDocument, index: map<string, string>,
                                     newId: string, today: string) {
    && out.id == newId
    && out.code == doc.id
    && out.version == OrDefault(doc.version, "1.0")
    && out.last_change == OrDefault(doc.lastChange, today)
    && out.name == CreateI18n(doc.title)
    && out.image == OrDefault(doc.image, "")
    && out.domain == CreateI18n(doc.category)
    && out.description == CreateI18n(doc.description)
    && out.tags == CreateI18nArray(doc.tags)
    && out.phases == doc.phases.GetOr([])
    && out.formats == doc.formats.GetOr([])
    && out.retention == ParseRetention(doc.retention)
    && out.related_elements == []
    && out.related_classifications ==
         (if doc.classifications.Some? then RelatedClassifications(Finder(index), doc.classifications.value) else [])
  }

  /** `migrateDocument(doc)`, with the generated UUID and today's date
      supplied by the caller. */
  method MigrateDocument(doc: LegacyDocument, index: map<string, string>, newId: string, today: string)
    returns (out: Document)
    ensures IsMigratedDocument(out, doc, index, newId, today)
  {
    var related := CollectRelatedClassifications(Finder(index), doc.classifications);
    out := Document(
      id := newId,
      code := doc.id,
      version := OrDefault(doc.version, "1.0"),
      last_change := OrDefault(doc.lastChange, today),
      name := CreateI18n(doc.title),
      image := OrDefault(doc.image, ""),
      domain := CreateI18n(doc.category),
      description := CreateI18n(doc.description),
      tags := CreateI18nArray(doc.tags),
      phases := doc.phases.GetOr([]),
      formats := doc.formats.GetOr([]),
      retention := ParseRetention(doc.retention),
      related_elements := [],
      related_classifications := related);
  }

  /** The two ends of the script: build the index from the catalogue, then
      `documents.map(migrateDocument)`, where the i-th call generates
      `newIds[i]`. The output keeps the input's length and order, and
      distinct generated ids stay distinct. */
  method MigrateDocuments(documents: seq<LegacyDocument>, catalog: seq<Classification>,
                          newIds: seq<string>, today: string)
    returns (out: seq<Document>)
    requires |newIds| == |documents|
    ensures |out| == |documents|
    ensures forall i :: 0 <= i < |out| ==>
              IsMigratedDocument(out[i], documents[i], CatalogIndex(catalog), newIds[i], today)
    ensures (forall i, j :: 0 <= i < j < |newIds| ==> newIds[i] != newIds[j]) ==>
              forall i, j :: 0 <= i < j < |out| ==> out[i].id != out[j].id
  {
    var index := BuildIndex(catalog);
    out := [];
    for i := 0 to |documents|
      invariant |out| == i
      invariant forall j :: 0 <= j < i ==> IsMigratedDocument(out[j], documents[j], index, newIds[j], today)
    {
      var d := MigrateDocument(documents[i], index, newIds[i], today);
      out := out + [d];
    }
  }
}
