# KBOB Fachdatenkatalog: localisation helpers and data migrations in Dafny

This project models three parts of the KBOB Fachdatenkatalog (a catalogue of
building-information documents, models, elements and classifications) and
proves properties of that model:

- **The localisation helpers** of the front end (`js/i18n.js`):
  - a process-wide display language with a guarded setter;
  - the resolver `t`, which picks a display string out of a four-language
    record `{de, fr, it, en}` by trying the current language, then a
    fallback, then the first non-empty language;
  - `tTags`, `isI18nObject`, `createI18n` and `createI18nArray`.
- **The document migration** (`scripts/migrate-documents.js`), which
  rewrites legacy document records into the normalised schema:
  - it builds a lookup index `system|code -> id` from the classification
    catalogue;
  - it parses each document's free-text classification codes, such as
    "D 0165 – Dokumentation Hochbau", with the pattern
    `/^([A-Z0-9.\s]+)\s*[–-]\s*/i`, in which lower-case letters are code
    characters too;
  - it maps legacy system names through an alias table and resolves each
    code to a reference;
  - it turns German retention phrases into "not specified", "indefinitely"
    or a number of years;
  - it makes the text fields four-language records.
- **The model migration** (`scripts/migrate-models.js`): the same
  rewriting for model records and their inline element definitions. It is a
  purely structural map.

Both scripts carry their own copies of `createI18n` and `createI18nArray`,
named `i18n` and `i18nArray` (`scripts/migrate-documents.js:28-41`,
`scripts/migrate-models.js:17-30`). Their bodies are those of
`js/i18n.js:120-144` up to the names, so they behave identically; each
pair is modelled once, as `I18n.CreateI18n` and `I18n.CreateI18nArray`.

The index files each catalogue entry under the catalogue's raw system name
(`scripts/migrate-documents.js:23`); only the lookup goes through the alias
table (`scripts/migrate-documents.js:73`).
`ClassificationIndex.LegacyNamedEntryNeverFound` states the consequence: a
catalogue entry filed under "Uniformat II 2010" is never found by a
document whose system name contains no '|'.

## Modules

| file | module | contents |
|---|---|---|
| `wrappers.dfy` | `Wrappers` | `Option`, standing in for `undefined` / `null` |
| `js_string.dfy` | `JsString` | the JavaScript string primitives the code relies on, stated at the character level: `\s`, `\d`, truthiness, `includes`, `trim`, `split(' ')[0]` |
| `i18n.dfy` | `I18n` | the display language as the class `Localizer`, with `t`, `tTags`, `isI18nObject`, `createI18n` and `createI18nArray` |
| `retention.dfy` | `Retention` | `parseRetention` and the pattern `(\d+)\s*Jahre?` |
| `classification_index.dfy` | `ClassificationIndex` | `parseClassificationCode`, the alias table, the index build and `findClassificationId` |
| `classification_refs.dfy` | `ClassificationRefs` | the nested loops that collect `related_classifications` |
| `migrate_documents.dfy` | `DocumentMigration` | `migrateDocument` and `documents.map(migrateDocument)` |
| `migrate_models.dfy` | `ModelMigration` | `migrateElements`, `migrateModel` and `models.map(migrateModel)` |

How JavaScript values are represented:
- A missing or `null` field is `None`.
- A string is truthy when it is present and non-empty.
- A list field that is not an array is `None`.
- Code that mutates something is modelled as imperative Dafny:
  - the language variable is a class field;
  - the `Map` build is a loop;
  - the `push` into `relatedClassifications` happens inside nested loops;
  - `documents.map` is a loop, because it calls the method that holds
    those loops.
- Everything else is functions.

Each method is proved against a specification function:
- `BuildIndex` against `CatalogIndex`;
- `CollectRelatedClassifications` against `RelatedClassifications`;
- `Localizer.T` against `Resolve`.

`CollectRelatedClassifications` and the function that specifies it take
the lookup as a closure from a system name and a code string to an
optional id; `ClassificationRefs.Finder` is the adapter that turns the
index lookup `FindClassificationId` into that closure.

The lemmas then state what those specification functions mean.

Things the code does not do itself are passed in as parameters:
- the generated UUIDs, as `newIds`;
- today's date, as `today`;
- the already-read JSON, as datatypes.

## Model

| member | source | states |
|---|---|---|
| JsString.Contains | scripts/migrate-documents.js:85-95 | `includes` is true exactly when the phrase occurs at some index of the text |
| JsString.MissingCharNotContained | scripts/migrate-documents.js:85-95 | helper of the retention example lemmas: a text that lacks one of the phrase's characters does not include the phrase |
| JsString.Span | scripts/migrate-documents.js:64 | the run of class characters from a start index is maximal: every character inside is in the class and the next one is not |
| JsString.SpanIsLongest | scripts/migrate-documents.js:64 | every run of class characters from that index fits inside the maximal one |
| JsString.TrimEnd | scripts/migrate-documents.js:66 | the result is a prefix, only whitespace was removed, and it does not end in whitespace |
| JsString.Trim | scripts/migrate-documents.js:66 | the result is a slice with only whitespace on either side, and it neither starts nor ends with whitespace |
| JsString.SplitHead | scripts/migrate-documents.js:68 | `split(' ')[0]` is the longest prefix without a space: the next character, if any, is the space |
| I18n.FirstNonEmpty | js/i18n.js:70-74 | the scan gives "" exactly when no language has text; otherwise it gives the text of the first language that has some |
| I18n.ResolveAll | js/i18n.js:95 | one resolved string per tag, in order, each `t` with fallback "de" |
| I18n.IsI18nObject | js/i18n.js:103-109 | true exactly for a non-null, non-array object with at least one of the keys de, fr, it, en, whatever their values |
| I18n.CreateI18n | js/i18n.js:120-127 | German is the value, or "" when it is missing; the other three languages are ""; German is non-empty exactly when the value is truthy |
| I18n.CreateEach | js/i18n.js:143 | one record per string, in order |
| I18n.CreateI18nArray | js/i18n.js:139-144 | [] for a non-array; otherwise one record per string, in order, with the string as German and empty placeholders |
| I18n.Localizer.constructor | js/i18n.js:14 | the display language starts as "de" and is supported |
| I18n.Localizer.SetLanguage | js/i18n.js:20-24 | a supported language becomes current and an unsupported one is ignored, so the current language always stays supported |
| I18n.Localizer.GetLanguage | js/i18n.js:30-32 | returns the current, supported language |
| I18n.Localizer.T | js/i18n.js:49-78 | "" for null or undefined; a string passes through; for an object, the current language's text, else the fallback's, else the first non-empty of de, fr, it, en, else ""; all of this equals `Resolve` |
| I18n.Localizer.TTags | js/i18n.js:90-96 | [] for a non-array; otherwise `t` of each element with fallback "de", in order |
| I18n.ResolveEmptyIffAllEmpty | js/i18n.js:49-78 | for a four-language record, `t` gives "" exactly when all four entries are empty, under any current and fallback language |
| I18n.CreateI18nRoundTrip | js/i18n.js:120-127 | a non-empty German value survives `createI18n` followed by `t`, under any languages, and the record passes `isI18nObject` |
| I18n.CreateI18nDisplays | js/i18n.js:120-127 | `t` of `createI18n(v)` is v, or "" when v is missing, in every language and under every fallback |
| I18n.ResolveTextNeedsLanguageKey | js/i18n.js:103-109 | with supported languages, `t` yields text only for a string or for a value `isI18nObject` accepts |
| I18n.ResolveSkipsEmptyGerman | js/i18n.js:62-74 | `t({de: "", fr: "Mur"})` with German current resolves to "Mur" |
| Retention.YearsMatchIsLongestRuns | scripts/migrate-documents.js:100 | at a given start, `(\d+)\s*Jahre?` can match in only one way: its digit group and its whitespace are the maximal runs |
| Retention.YearsHereIsFirst | scripts/migrate-documents.js:100 | when the maximal runs at a start are followed by "Jahr", that start gives the leftmost match with the longest group |
| Retention.NotYearsHere | scripts/migrate-documents.js:100 | when they are not, the pattern matches at that start in no way at all |
| Retention.FindYearsFromNoneIffNoMatch | scripts/migrate-documents.js:100 | the scan from an index finds nothing exactly when the pattern matches at no start from there on |
| Retention.FindYearsFromIsFirstMatch | scripts/migrate-documents.js:100-103 | when the scan from an index finds something, it is the value of the digit group of the leftmost, greedy match from there on |
| Retention.FindYears | scripts/migrate-documents.js:100-103 | `match` followed by `parseInt` of the group is `None` exactly when the pattern matches nowhere, and otherwise the value of the leftmost match's digits |
| Retention.ParseRetention | scripts/migrate-documents.js:81-107 | `None` for a falsy phrase; then, in order: "bis Ersatz" or "unbefristet" give 0, "keine Aufbewahrung" gives `None`, "bis Bearbeitungszweck entfällt" gives 0, and otherwise the "N Jahre" value or `None` |
| Retention.UntilReplacedIsIndefinite | scripts/migrate-documents.js:84-87 | "bis Ersatz" means indefinitely (0) |
| Retention.NoRetentionIsUnspecified | scripts/migrate-documents.js:89-92 | "keine Aufbewahrung" means not specified |
| Retention.TenYears | scripts/migrate-documents.js:99-103 | "10 Jahre" means 10 years |
| Retention.TenYearsScan | scripts/migrate-documents.js:100-102 | the pattern finds 10 in "10 Jahre" |
| Retention.LacksReplacementKeywords | scripts/migrate-documents.js:85 | helper of the retention example lemmas: a phrase with neither 'E' nor 's' includes neither "bis Ersatz" nor "unbefristet" |
| Retention.LacksAllKeywords | scripts/migrate-documents.js:85-95 | helper of the retention example lemmas: a phrase with no 'E', 's' or 'k' includes none of the four keywords |
| Retention.NoPhraseIsUnspecified | scripts/migrate-documents.js:82 | a missing or empty phrase means not specified |
| ClassificationIndex.CodeMatchEndsRun | scripts/migrate-documents.js:64 | every match of the code pattern ends where the leading run of code characters ends |
| ClassificationIndex.ParseClassificationCodeFollowsPattern | scripts/migrate-documents.js:62-69 | when the pattern matches, the code is the greedy group (the longest group any match admits) trimmed; when it does not, the text before the first space |
| ClassificationIndex.TrimOneTrailingSpace | scripts/migrate-documents.js:66 | helper of the code example lemmas: trimming a text that starts with a non-blank and ends in exactly one space drops just that space |
| ClassificationIndex.NumericCodeExample | scripts/migrate-documents.js:63-66 | every text starting "100 –" gets the code "100" |
| ClassificationIndex.NumericCodeRun | scripts/migrate-documents.js:64 | helper of `NumericCodeExample`: in a text starting "100 –" the code run is "100 " and a dash follows it |
| ClassificationIndex.SpacedCodeExample | scripts/migrate-documents.js:63-66 | every text starting "D 0165 –" gets the code "D 0165", keeping its inner space |
| ClassificationIndex.SpacedCodeRun | scripts/migrate-documents.js:64 | helper of `SpacedCodeExample`: in a text starting "D 0165 –" the code run is "D 0165 " and a dash follows it |
| ClassificationIndex.MappedSystemIsTableLookup | scripts/migrate-documents.js:49-59 | the alias table lookup with its pass-through renames only "Uniformat II 2010" and passes every other name through |
| ClassificationIndex.MapAfterSetsKeys | scripts/migrate-documents.js:21-25 | after the `set` calls, a key is present exactly when some call set it |
| ClassificationIndex.MapAfterSetsLastValue | scripts/migrate-documents.js:21-25 | a key holds the value of the last `set` of that key |
| ClassificationIndex.CatalogPairs | scripts/migrate-documents.js:22-24 | one (key, id) pair per catalogue entry, in catalogue order |
| ClassificationIndex.CatalogIndexLastWins | scripts/migrate-documents.js:21-25 | the index holds a key exactly when some entry is filed under it, and then the id of the last such entry |
| ClassificationIndex.BuildIndex | scripts/migrate-documents.js:21-25 | the `forEach` of `set` calls builds exactly the catalogue index |
| ClassificationIndex.FindClassificationId | scripts/migrate-documents.js:72-77 | the result is undefined exactly when the aliased-system/parsed-code key is missing, and otherwise the id filed under it |
| ClassificationIndex.FindInCatalog | scripts/migrate-documents.js:72-77 | against the catalogue itself: a lookup finds an id exactly when some entry is filed under the lookup key, and then the id of the last such entry |
| ClassificationIndex.LegacyNamedEntryNeverFound | scripts/migrate-documents.js:23-24 | a catalogue entry filed under the legacy name "Uniformat II 2010" is never found by a document system name that contains no bar character |
| ClassificationIndex.KeysDifferAtFirstBar | scripts/migrate-documents.js:75 | two index keys whose system parts contain no bar character are equal only when the system parts are |
| ClassificationRefs.Hit | scripts/migrate-documents.js:122-124 | a lookup contributes one reference, carrying its id, exactly when the id is truthy |
| ClassificationRefs.ResolveCodesAppend | scripts/migrate-documents.js:120-125 | code order is kept: the references of a split code list are those of its parts, concatenated |
| ClassificationRefs.RelatedClassificationsAppend | scripts/migrate-documents.js:118-127 | system order is kept: the references of a split classification object are those of its parts, concatenated |
| ClassificationRefs.ResolveCodesSound | scripts/migrate-documents.js:120-125 | each reference of a code list has a non-empty id that the lookup gave for one of its codes; at most one reference per code |
| ClassificationRefs.RelatedClassificationsSound | scripts/migrate-documents.js:116-128 | each related classification has a non-empty id that the lookup gave for a code of the document; at most one per code string |
| ClassificationRefs.ResolveCodesComplete | scripts/migrate-documents.js:120-125 | when every code resolves to a truthy id, the list has one reference per code |
| ClassificationRefs.RelatedClassificationsComplete | scripts/migrate-documents.js:116-128 | when every code string resolves to a truthy id, nothing is dropped: one reference per code string, duplicates included |
| ClassificationRefs.CatalogRoundTripExample | scripts/migrate-documents.js:116-128 | with the catalogue entry eBKP-H / 100 / X, the classification object `{"eBKP-H": ["100 – Foo"]}` yields exactly `[{id: "X"}]` |
| ClassificationRefs.CollectCodeRefs | scripts/migrate-documents.js:120-125 | the inner `forEach` pushes exactly the references of that system's code list |
| ClassificationRefs.CollectRelatedClassifications | scripts/migrate-documents.js:116-128 | the nested loops give [] for a missing classification object and otherwise exactly the references in system order, then code order |
| DocumentMigration.MigrateDocument | scripts/migrate-documents.js:110-146 | the fresh id becomes `id` and the old id `code`; version, last change and image get their defaults; title, category and description become four-language records with the German text; tags become records; phases and formats pass through or become []; the retention is parsed; `related_elements` is []; the related classifications are those of the lookup |
| DocumentMigration.MigrateDocuments | scripts/migrate-documents.js:150 | one migrated document per input, in order, each resolved against the catalogue index; distinct generated ids give distinct document ids |
| ModelMigration.MigrateElement | scripts/migrate-models.js:40-44 | name and description become records with the German text and empty placeholders; phases pass through or become []; no other field survives |
| ModelMigration.MigrateEach | scripts/migrate-models.js:40 | one element per legacy element, in order |
| ModelMigration.MigrateElements | scripts/migrate-models.js:38-45 | [] for a non-array; otherwise one migrated element per legacy element, same length, same order |
| ModelMigration.MigrateModel | scripts/migrate-models.js:48-67 | the fresh id becomes `id` and the old id `code`; version defaults to "1.0", last change to today, image to ""; title, category and description become records; tags become records; phases pass through or become []; elements are migrated; `related_elements` is []; there are no retention or classification fields |
| ModelMigration.MigrateModels | scripts/migrate-models.js:71 | one migrated model per input, in order; every model keeps its old id as its code; distinct generated ids stay distinct |
| ModelMigration.MigrateElementRoundTrip | scripts/migrate-models.js:40-44 | an element with non-empty name and description and an array of phases can be written back unchanged from its migrated form |

## Left out

- **File input and output, JSON parsing and printing, and the console
  statistics** (`scripts/migrate-documents.js:14-18, 153-182`,
  `scripts/migrate-models.js:12-14, 74-101`): I/O and logging only. The
  records are Dafny datatypes.
- **`crypto.randomUUID`**: a foreign call with randomness. The ids are the
  parameter `newIds`. That they are distinct is a hypothesis of the
  distinctness results, not something proved.
- **`new Date().toISOString().split('T')[0]`**: the clock. The date is the
  parameter `today`.
- **Values of unexpected JavaScript types**, which are not modelled:
  - a non-string `fullCode`, where `match` throws;
  - a non-string retention value: `includes` throws, or, for an array,
    tests membership;
  - numbers or booleans inside text fields;
  - non-string members of a record passed to `t`: object members are
    strings;
  - arrays as classification objects, whose `Object.entries` gives index
    keys;
  - truthy non-array values in the document's `phases` or `formats`, the
    model's `phases` or an element's `phases`, which `|| []` would pass
    through.
- **Prototype keys** (`systemMapping["constructor"]`, `"toString" in value`):
  the alias table and records are plain maps.
- **`Object.entries` key order** (integer-like keys first): a
  classification object is a list of `(system, codes)` pairs, in the order
  the loop visits them.
- **`parseInt` precision** on very long digit runs: the value is an
  unbounded natural number.
- **The general regular-expression engine**: only the two patterns of the
  scripts are modelled, by the matches they admit and by the
  leftmost-greedy choice among them.
- **`t` on arrays and other objects** with language-named properties:
  `t` of an array gives "", as it does for JSON arrays.
- **`documents.map`**: modelled as a loop that fills the result in order,
  because `migrateDocument` is a method; `models.map` is a function.
