/** The localisation helpers of the catalogue front end: a process-wide
    display language with a guarded setter, the resolver `t` that picks a
    display string from a four-language record by an explicit fallback order,
    its list form `tTags`, the shape test `isI18nObject`, and the constructors
    `createI18n` / `createI18nArray` (which the two migration scripts carry as
    the copies `i18n` / `i18nArray`). */
module I18n {
  import opened Wrappers
  import opened JsString

  /** The supported language codes, in the order the last-resort scan uses. */
  const Languages: seq<string> := ["de", "fr", "it", "en"]

  /** The values `t`, `tTags` and `isI18nObject` can be handed. Object members
      are strings; a record with a missing language simply lacks the key. */
  datatype JsValue =
    | Undefined
    | Null
    | Bool(b: bool)
    | Num(n: int)
    | Str(s: string)
    | Arr(items: seq<JsValue>)
    | Obj(fields: map<string, string>)

  /** The four-language record `{de, fr, it, en}`. */
  datatype I18nText = I18nText(de: string, fr: string, it: string, en: string)

  /** The record as the JavaScript object it is stored as. */
  function AsValue(x: I18nText): JsValue {
    Obj(map["de" := x.de, "fr" := x.fr, "it" := x.it, "en" := x.en])
  }

  /** `obj[key]` is truthy: the key is present with a non-empty string. */
  predicate HasText(fields: map<string, string>, key: string) {
    key in fields && fields[key] != ""
  }

  /** The first non-empty entry among `langs`, scanned in order, or "". */
  function FirstNonEmpty(fields: map<string, string>, langs: seq<string>): (r: string)
    ensures r == "" <==> forall i :: 0 <= i < |langs| ==> !HasText(fields, langs[i])
    ensures r != "" ==> exists i :: 0 <= i < |langs| && HasText(fields, langs[i]) && r == fields[langs[i]]
                                    && forall j :: 0 <= j < i ==> !HasText(fields, langs[j])
  {
    if langs == [] then ""
    else if HasText(fields, langs[0]) then fields[langs[0]]
    else
      var r := FirstNonEmpty(fields, langs[1..]);
      assert forall i :: 1 <= i < |langs| ==> langs[i] == langs[1..][i - 1];
      r
  }

  /** What `t(obj, fallback)` returns when the display language is `current`:
      the current language's entry, else the fallback's, else the first
      non-empty of de, fr, it, en, else "". A plain string passes through;
      every other value gives "". */
  function Resolve(obj: JsValue, current: string, fallback: string): string {
    match obj
    case Str(s) => s
    case Obj(f) =>
      if HasText(f, current) then f[current]
      else if HasText(f, fallback) then f[fallback]
      else FirstNonEmpty(f, Languages)
    case _ => ""
  }

  /** `t` mapped over a list of values with the default fallback "de". */
  function ResolveAll(items: seq<JsValue>, current: string): (r: seq<string>)
    ensures |r| == |items|
    ensures forall i :: 0 <= i < |items| ==> r[i] == Resolve(items[i], current, "de")
  {
    if items == [] then [] else [Resolve(items[0], current, "de")] + ResolveAll(items[1..], current)
  }

  /** `isI18nObject(value)`: a non-null, non-array object that has at least one
      of the four language keys, whatever its value. */
  function IsI18nObject(value: JsValue): (r: bool)
    ensures r <==> value.Obj? && exists i :: 0 <= i < |Languages| && Languages[i] in value.fields
  {
    match value
    case Obj(f) =>
      assert Languages[0] == "de" && Languages[1] == "fr" && Languages[2] == "it" && Languages[3] == "en";
      "de" in f || "fr" in f || "it" in f || "en" in f
    case _ => false
  }

  /** `createI18n(germanValue)`: the German text (or "" for a missing value)
      with empty placeholders for the other three languages. */
  function CreateI18n(germanValue: Option<string>): (r: I18nText)
    ensures r.de == germanValue.GetOr("")
    ensures r.fr == "" && r.it == "" && r.en == ""
    ensures r.de != "" <==> Truthy(germanValue)
  {
    I18nText(OrDefault(germanValue, ""), "", "", "")
  }

  function CreateEach(values: seq<string>): (r: seq<I18nText>)
    ensures |r| == |values|
    ensures forall i :: 0 <= i < |values| ==> r[i] == CreateI18n(Some(values[i]))
  {
    if values == [] then [] else [CreateI18n(Some(values[0]))] + CreateEach(values[1..])
  }

  /** `createI18nArray(germanArray)`: one record per string, in order; a value
      that is not an array (`None`) gives []. */
  function CreateI18nArray(germanArray: Option<seq<string>>): (r: seq<I18nText>)
    ensures germanArray.None? ==> r == []
    ensures germanArray.Some? ==> |r| == |germanArray.value|
    ensures germanArray.Some? ==> forall i :: 0 <= i < |r| ==>
              r[i].de == germanArray.value[i] && r[i].fr == r[i].it == r[i].en == ""
  {
    match germanArray
    case None => []
    case Some(values) => CreateEach(values)
  }

  /** The process-wide display language. */
  class Localizer {
    var currentLang: string

    /** The display language is always one of the supported codes. */
    ghost predicate Valid()
      reads this
    {
      currentLang in Languages
    }

    /** The language starts out as German. */
    constructor ()
      ensures Valid() && currentLang == "de"
    {
      currentLang := "de";
    }

    /** `setLanguage(lang)`: switches to `lang` when it is supported and
        otherwise keeps the current language. */
    method SetLanguage(lang: string)
      requires Valid()
      modifies this
      ensures Valid()
      ensures currentLang == if lang in Languages then lang else old(currentLang)
    {
      if lang in Languages {
        currentLang := lang;
      }
    }

    /** `getLanguage()`. */
    method GetLanguage() returns (lang: string)
      requires Valid()
      ensures lang == currentLang && lang in Languages
    {
      lang := currentLang;
    }

    /** `t(obj, fallbackLang)` with its early-returning scan over the four
        languages. */
    method T(obj: JsValue, fallbackLang: string := "de") returns (r: string)
      ensures obj.Undefined? || obj.Null? ==> r == ""
      ensures obj.Str? ==> r == obj.s
      ensures !obj.Str? && !obj.Obj? ==> r == ""
      ensures obj.Obj? && HasText(obj.fields, currentLang) ==> r == obj.fields[currentLang]
      ensures obj.Obj? && !HasText(obj.fields, currentLang) && HasText(obj.fields, fallbackLang)
              ==> r == obj.fields[fallbackLang]
      ensures obj.Obj? && !HasText(obj.fields, currentLang) && !HasText(obj.fields, fallbackLang)
              ==> r == FirstNonEmpty(obj.fields, Languages)
      ensures r == Resolve(obj, currentLang, fallbackLang)
    {
      if obj.Undefined? || obj.Null? {
        return "";
      }
      if obj.Str? {
        return obj.s;
      }
      if obj.Obj? {
        var f := obj.fields;
        if HasText(f, currentLang) {
          return f[currentLang];
        }
        if HasText(f, fallbackLang) {
          return f[fallbackLang];
        }
        var langs := Languages;
        var i := 0;
        while i < |langs|
          invariant 0 <= i <= |langs|
          invariant forall j :: 0 <= j < i ==> !HasText(f, langs[j])
        {
          if HasText(f, langs[i]) {
            return f[langs[i]];
          }
          i := i + 1;
        }
      }
      return "";
    }

    /** `tTags(tags)`: `t` with the default fallback applied to every element
        of an array, in order; any other value gives []. */
    function TTags(tags: JsValue): (r: seq<string>)
      reads this
      ensures !tags.Arr? ==> r == []
      ensures tags.Arr? ==> |r| == |tags.items|
      ensures tags.Arr? ==> forall i :: 0 <= i < |r| ==> r[i] == Resolve(tags.items[i], currentLang, "de")
    {
      if tags.Arr? then ResolveAll(tags.items, currentLang) else []
    }
  }

  /** For a four-language record, `t` gives "" exactly when all four entries
      are empty, whatever the current and fallback languages. */
  lemma ResolveEmptyIffAllEmpty(x: I18nText, current: string, fallback: string)
    ensures Resolve(AsValue(x), current, fallback) == ""
            <==> x.de == "" && x.fr == "" && x.it == "" && x.en == ""
  {
    var f := AsValue(x).fields;
    if x.de != "" {
      assert HasText(f, Languages[0]);
    } else if x.fr != "" {
      assert HasText(f, Languages[1]);
    } else if x.it != "" {
      assert HasText(f, Languages[2]);
    } else if x.en != "" {
      assert HasText(f, Languages[3]);
    }
  }

  /** A non-empty German value survives `createI18n` and `t`: it is displayed
      in every language and under every fallback, and the record is
      recognised as localised text. */
  lemma CreateI18nRoundTrip(v: string, current: string, fallback: string)
    requires v != ""
    ensures Resolve(AsValue(CreateI18n(Some(v))), current, fallback) == v
    ensures IsI18nObject(AsValue(CreateI18n(Some(v))))
  {
    var f := AsValue(CreateI18n(Some(v))).fields;
    assert HasText(f, Languages[0]);
    assert Languages[0] in f;
  }

  /** Whatever the German value, `t` of the record `createI18n` makes of it
      shows that value (or "" when it is missing) in every display language
      and under every fallback. */
  lemma CreateI18nDisplays(germanValue: Option<string>, current: string, fallback: string)
    ensures Resolve(AsValue(CreateI18n(germanValue)), current, fallback) == germanValue.GetOr("")
  {
    if Truthy(germanValue) {
      CreateI18nRoundTrip(germanValue.value, current, fallback);
    } else {
      ResolveEmptyIffAllEmpty(CreateI18n(germanValue), current, fallback);
    }
  }

  /** With supported current and fallback languages, `t` can only produce
      text from a plain string or from a value `isI18nObject` accepts. */
  lemma ResolveTextNeedsLanguageKey(obj: JsValue, current: string, fallback: string)
    requires current in Languages && fallback in Languages
    requires Resolve(obj, current, fallback) != ""
    ensures obj.Str? || IsI18nObject(obj)
  {
    if obj.Obj? {
      var f := obj.fields;
      if HasText(f, current) {
        var i :| 0 <= i < |Languages| && Languages[i] == current;
        assert Languages[i] in f;
      } else if HasText(f, fallback) {
        var i :| 0 <= i < |Languages| && Languages[i] == fallback;
        assert Languages[i] in f;
      } else {
        var i :| 0 <= i < |Languages| && HasText(f, Languages[i]);
        assert Languages[i] in f;
      }
    }
  }

  /** The worked example: `t({de: "", fr: "Mur"})` with German display
      language falls through the empty German entry to "Mur". */
  lemma ResolveSkipsEmptyGerman()
    ensures Resolve(Obj(map["de" := "", "fr" := "Mur"]), "de", "de") == "Mur"
  {
    var f := map["de" := "", "fr" := "Mur"];
    assert !HasText(f, Languages[0]) && HasText(f, Languages[1]);
  }
}
