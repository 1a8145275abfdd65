/** The model migration: legacy model records, with their inline element
    definitions, are rewritten into the normalised schema. Every step is a
    structural map: plain German strings become four-language records,
    missing fields get their defaults, and lists keep their length and
    order. */
module ModelMigration {
  import opened Wrappers
  import opened JsString
  import opened I18n
  import opened ClassificationRefs

  /** An inline element definition of a legacy model; `None` stands for a
      missing (or null) field, and for `phases` also for a value that is not
      an array. */
  datatype LegacyElement = LegacyElement(
    name: Option<string>,
    description: Option<string>,
    phases: Option<seq<string>>)

  /** An element in the normalised schema: no other legacy field survives. */
  datatype Element = Element(name: I18nText, description: I18nText, phases: seq<string>)

  /** A legacy model record. */
  datatype LegacyModel = LegacyModel(
    id: string,
    version: Option<string>,
    lastChange: Option<string>,
    title: Option<string>,
    category: Option<string>,
    description: Option<string>,
    image: Option<string>,
    tags: Option<seq<string>>,
    phases: Option<seq<string>>,
    elements: Option<seq<LegacyElement>>)

  /** A model in the normalised schema (field names as written out). It has
      no retention and no classification fields. */
  datatype Model = Model(
    id: string,
    code: string,
    version: string,
    last_change: string,
    name: I18nText,
    image: string,
    domain: I18nText,
    description: I18nText,
    tags: seq<I18nText>,
    phases: seq<string>,
    elements: seq<Element>,
    related_elements: seq<Reference>)

  /** The callback of `migrateElements` for one element. */
  function MigrateElement(el: LegacyElement): (r: Element)
    ensures r.name.de == el.name.GetOr("") && r.name.fr == r.name.it == r.name.en == ""
    ensures r.description.de == el.description.GetOr("")
    ensures r.description.fr == r.description.it == r.description.en == ""
    ensures r.phases == el.phases.GetOr([])
  {
    Element(CreateI18n(el.name), CreateI18n(el.description), el.phases.GetOr([]))
  }

  function MigrateEach(els: seq<LegacyElement>): (r: seq<Element>)
    ensures |r| == |els|
    ensures forall i :: 0 <= i < |els| ==> r[i] == MigrateElement(els[i])
  {
    if els == [] then [] else [MigrateElement(els[0])] + MigrateEach(els[1..])
  }

  /** `migrateElements(elements)`: [] for a value that is not an array,
      otherwise one migrated element per legacy element, in order. */
  function MigrateElements(elements: Option<seq<LegacyElement>>): (r: seq<Element>)
    ensures elements.None? ==> r == []
    ensures elements.Some? ==> |r| == |elements.value|
    ensures elements.Some? ==> forall i :: 0 <= i < |r| ==> r[i] == MigrateElement(elements.value[i])
  {
    match elements
    case None => []
    case Some(els) => MigrateEach(els)
  }

  /** `migrateModel(model)`, with the generated UUID and today's date
      supplied by the caller. The old id becomes the code, the text fields
      become four-language records with the German text in place, and
      missing fields get their defaults. */
  function MigrateModel(model: LegacyModel, newId: string, today: string): (out: Model)
    ensures out.id == newId && out.code == model.id
    ensures out.version == (if Truthy(model.version) then model.version.value else "1.0")
    ensures out.last_change == (if Truthy(model.lastChange) then model.lastChange.value else today)
    ensures out.image == (if Truthy(model.image) then model.image.value else "")
    ensures out.name == CreateI18n(model.title)
    ensures out.domain == CreateI18n(model.category)
    ensures out.description == CreateI18n(model.description)
    ensures out.tags == CreateI18nArray(model.tags)
    ensures out.phases == model.phases.GetOr([])
    ensures out.elements == MigrateElements(model.elements)
    ensures out.related_elements == []
  {
    Model(
      id := newId,
      code := model.id,
      version := OrDefault(model.version, "1.0"),
      last_change := OrDefault(model.lastChange, today),
      name := CreateI18n(model.title),
      image := OrDefault(model.image, ""),
      domain := CreateI18n(model.category),
      description := CreateI18n(model.description),
      tags := CreateI18nArray(model.tags),
      phases := model.phases.GetOr([]),
      elements := MigrateElements(model.elements),
      related_elements := [])
  }

  /** `models.map(migrateModel)`, where the i-th call generates `newIds[i]`:
      one migrated model per legacy model, in order; every model keeps its
      old id as its code, and distinct generated ids stay distinct. */
  function MigrateModels(models: seq<LegacyModel>, newIds: seq<string>, today: string): (out: seq<Model>)
    requires |newIds| == |models|
    ensures |out| == |models|
    ensures forall i :: 0 <= i < |out| ==> out[i] == MigrateModel(models[i], newIds[i], today)
    ensures forall i :: 0 <= i < |out| ==> out[i].code == models[i].id
    ensures (forall i, j :: 0 <= i < j < |newIds| ==> newIds[i] != newIds[j]) ==>
              forall i, j :: 0 <= i < j < |out| ==> out[i].id != out[j].id
  {
    if models == [] then []
    else [MigrateModel(models[0], newIds[0], today)] + MigrateModels(models[1..], newIds[1..], today)
  }

  /** What of a migrated element could be written back as a legacy element. */
  function LegacyOf(el: Element): LegacyElement {
    LegacyElement(Some(el.name.de), Some(el.description.de), Some(el.phases))
  }

  /** An element whose name and description are non-empty and whose phases
      are an array loses nothing in the migration. */
  lemma MigrateElementRoundTrip(el: LegacyElement)
    requires Truthy(el.name) && Truthy(el.description) && el.phases.Some?
    ensures LegacyOf(MigrateElement(el)) == el
  {
  }
}
