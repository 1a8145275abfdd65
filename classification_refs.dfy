/** The `related_classifications` of a migrated document: every code string
    of its classification object, resolved in order through the catalogue
    lookup, one reference per lookup that yields an id. */
module ClassificationRefs {
  import opened Wrappers
  import opened JsString
  import opened ClassificationIndex

  /** One `[system, codes]` entry of a legacy document's classification
      object; `codes` is `None` when it is not an array. */
  datatype SystemCodes = SystemCodes(system: string, codes: Option<seq<string>>)

  /** A `{id}` reference to another entity. */
  datatype Reference = Reference(id: string)


  /** `findClassificationId` as what it is in the script: a closure over the
      index, from a system name and a code string to an id. */
  function Finder(index: map<string, string>): (find: (string, string) -> Option<string>)
  {
    (system, fullCode) => FindClassificationId(index, system, fullCode)
  }

  /** The references one lookup contributes: its id when it is truthy
      (present and non-empty), nothing otherwise. */
  function Hit(found: Option<string>): (r: seq<Reference>)
    ensures |r| <= 1
    ensures r != [] <==> Truthy(found)
    ensures r != [] ==> r[0].id == found.value
  {
    if Truthy(found) then [Reference(found.value)] else []
  }

  /** The references of one system's code list, in list order. */
  function ResolveCodes(find: (string, string) -> Option<string>, system: string, codes: seq<string>): seq<Reference> {
    if codes == [] then []
    else ResolveCodes(find, system, codes[..|codes| - 1]) + Hit(find(system, codes[|codes| - 1]))
  }

  /** The references of one `[system, codes]` entry; a code list that is not
      an array contributes nothing. */
  function ResolveEntry(find: (string, string) -> Option<string>, e: SystemCodes): seq<Reference> {
    ResolveCodes(find, e.system, e.codes.GetOr([]))
  }

  /** The number of code strings in the array-valued code lists. */
  function CodeCount(entries: seq<SystemCodes>): nat {
    if entries == [] then 0
    else CodeCount(entries[..|entries| - 1]) + |entries[|entries| - 1].codes.GetOr([])|
  }

  /** `relatedClassifications` as the nested `forEach` loops leave it: the
      references of all systems, in system order and then code order. */
  function RelatedClassifications(find: (string, string) -> Option<string>, entries: seq<SystemCodes>): seq<Reference> {
    if entries == [] then []
    else RelatedClassifications(find, entries[..|entries| - 1]) + ResolveEntry(find, entries[|entries| - 1])
  }

  lemma ResolveCodesSnoc(find: (string, string) -> Option<string>, system: string, codes: seq<string>, last: string)
    ensures ResolveCodes(find, system, codes + [last]) == ResolveCodes(find, system, codes) + Hit(find(system, last))
  {
    assert (codes + [last])[..|codes|] == codes;
  }

  lemma RelatedClassificationsSnoc(find: (string, string) -> Option<string>, entries: seq<SystemCodes>, last: SystemCodes)
    ensures RelatedClassifications(find, entries + [last]) == RelatedClassifications(find, entries) + ResolveEntry(find, last)
  {
    assert (entries + [last])[..|entries|] == entries;
  }

  /** Code order: the references of a split code list are those of its
      parts, concatenated. */
  lemma {:induction false} ResolveCodesAppend(find: (string, string) -> Option<string>, system: string,
                                              a: seq<string>, b: seq<string>)
    ensures ResolveCodes(find, system, a + b) == ResolveCodes(find, system, a) + ResolveCodes(find, system, b)
    decreases |b|
  {
    if b == [] {
      assert a + b == a;
    } else {
      var b' := b[..|b| - 1];
      var last := b[|b| - 1];
      assert a + b == (a + b') + [last];
      assert b == b' + [last];
      ResolveCodesSnoc(find, system, a + b', last);
      ResolveCodesSnoc(find, system, b', last);
      ResolveCodesAppend(find, system, a, b');
    }
  }

  /** System order: the references of a split classification object are
      those of its parts, concatenated. */
  lemma {:induction false} RelatedClassificationsAppend(find: (string, string) -> Option<string>,
                                                        a: seq<SystemCodes>, b: seq<SystemCodes>)
    ensures RelatedClassifications(find, a + b) == RelatedClassifications(find, a) + RelatedClassifications(find, b)
    decreases |b|
  {
    if b == [] {
      assert a + b == a;
    } else {
      var b' := b[..|b| - 1];
      var last := b[|b| - 1];
      assert a + b == (a + b') + [last];
      assert b == b' + [last];
      RelatedClassificationsSnoc(find, a + b', last);
      RelatedClassificationsSnoc(find, b', last);
      RelatedClassificationsAppend(find, a, b');
    }
  }

  /** Every reference of a code list is a truthy lookup result of one of
      its codes, and there is at most one per code. */
  lemma {:induction false} ResolveCodesSound(find: (string, string) -> Option<string>, system: string, codes: seq<string>)
    ensures |ResolveCodes(find, system, codes)| <= |codes|
    ensures forall i :: 0 <= i < |ResolveCodes(find, system, codes)| ==>
              var id := ResolveCodes(find, system, codes)[i].id;
              id != "" && exists j :: 0 <= j < |codes| && find(system, codes[j]) == Some(id)
    decreases |codes|
  {
    if codes != [] {
      var n := |codes| - 1;
      var prefix := ResolveCodes(find, system, codes[..n]);
      var hit := Hit(find(system, codes[n]));
      ResolveCodesSound(find, system, codes[..n]);
      var r := ResolveCodes(find, system, codes);
      assert r == prefix + hit;
      forall i | 0 <= i < |r|
        ensures r[i].id != "" && exists j :: 0 <= j < |codes| && find(system, codes[j]) == Some(r[i].id)
      {
        if i < |prefix| {
          var j :| 0 <= j < n && find(system, codes[..n][j]) == Some(prefix[i].id);
          assert codes[..n][j] == codes[j];
        } else {
          assert r[i] == hit[0];
        }
      }
    }
  }

  /** Every related classification is a truthy lookup result of one of the
      document's code strings, and there is at most one per code string. */
  lemma {:induction false} RelatedClassificationsSound(find: (string, string) -> Option<string>, entries: seq<SystemCodes>)
    ensures |RelatedClassifications(find, entries)| <= CodeCount(entries)
    ensures forall i :: 0 <= i < |RelatedClassifications(find, entries)| ==>
              var id := RelatedClassifications(find, entries)[i].id;
              id != "" && exists e, c :: e in entries && e.codes.Some? && c in e.codes.value && find(e.system, c) == Some(id)
    decreases |entries|
  {
    if entries != [] {
      var n := |entries| - 1;
      var last := entries[n];
      var prefix := RelatedClassifications(find, entries[..n]);
      var tail := ResolveEntry(find, last);
      RelatedClassificationsSound(find, entries[..n]);
      if last.codes.Some? {
        ResolveCodesSound(find, last.system, last.codes.value);
      }
      var r := RelatedClassifications(find, entries);
      assert r == prefix + tail;
      forall i | 0 <= i < |r|
        ensures exists e, c :: e in entries && e.codes.Some? && c in e.codes.value && find(e.system, c) == Some(r[i].id)
      {
        if i < |prefix| {
          var e, c :| e in entries[..n] && e.codes.Some? && c in e.codes.value && find(e.system, c) == Some(prefix[i].id);
          assert e in entries;
        } else {
          var j :| 0 <= j < |last.codes.value| && find(last.system, last.codes.value[j]) == Some(tail[i - |prefix|].id);
          assert last in entries;
        }
      }
    }
  }

  /** When every code string resolves to a truthy id, none is dropped: one
      reference per code string, duplicates included. */
  lemma {:induction false} RelatedClassificationsComplete(find: (string, string) -> Option<string>, entries: seq<SystemCodes>)
    requires forall e, c :: e in entries && e.codes.Some? && c in e.codes.value ==> Truthy(find(e.system, c))
    ensures |RelatedClassifications(find, entries)| == CodeCount(entries)
    decreases |entries|
  {
    if entries != [] {
      var n := |entries| - 1;
      assert forall e :: e in entries[..n] ==> e in entries;
      RelatedClassificationsComplete(find, entries[..n]);
      var e := entries[n];
      if e.codes.Some? {
        ResolveCodesComplete(find, e.system, e.codes.value);
      }
    }
  }

  lemma {:induction false} ResolveCodesComplete(find: (string, string) -> Option<string>, system: string, codes: seq<string>)
    requires forall c :: c in codes ==> Truthy(find(system, c))
    ensures |ResolveCodes(find, system, codes)| == |codes|
    decreases |codes|
  {
    if codes != [] {
      var n := |codes| - 1;
      assert codes[n] in codes;
      assert forall c :: c in codes[..n] ==> c in codes;
      ResolveCodesComplete(find, system, codes[..n]);
    }
  }

  /** The end-to-end example: with the catalogue entry `eBKP-H / 100 / X`,
      the classification object `{"eBKP-H": ["100 – Foo"]}` (or any other
      code string starting "100 –") yields the single reference `{id: "X"}`. */
  lemma CatalogRoundTripExample(catalog: seq<Classification>, codeStr: string)
    requires catalog == [Classification("eBKP-H", "100", "X")]
    requires "100 \U{2013}" <= codeStr
    ensures RelatedClassifications(Finder(CatalogIndex(catalog)), [SystemCodes("eBKP-H", Some([codeStr]))])
            == [Reference("X")]
  {
    var find := Finder(CatalogIndex(catalog));
    NumericCodeExample(codeStr);
    assert LookupKey("eBKP-H", codeStr) == KeyOf(catalog[0]);
    FindInCatalog(catalog, "eBKP-H", codeStr);
    assert IsLastWithKey(catalog, 0);
    assert find("eBKP-H", codeStr) == Some("X");
    ResolveCodesSnoc(find, "eBKP-H", [], codeStr);
    RelatedClassificationsSnoc(find, [], SystemCodes("eBKP-H", Some([codeStr])));
    assert [] + [codeStr] == [codeStr];
    assert [] + [SystemCodes("eBKP-H", Some([codeStr]))] == [SystemCodes("eBKP-H", Some([codeStr]))];
  }

  /** The inner `forEach` of `migrateDocument`: one reference per code
      string of one system whose lookup gives a truthy id. */
  method CollectCodeRefs(find: (string, string) -> Option<string>, system: string, codes: seq<string>)
    returns (refs: seq<Reference>)
    ensures refs == ResolveCodes(find, system, codes)
  {
    refs := [];
    for c := 0 to |codes|
      invariant refs == ResolveCodes(find, system, codes[..c])
    {
      assert codes[..c + 1] == codes[..c] + [codes[c]];
      ResolveCodesSnoc(find, system, codes[..c], codes[c]);
      var id := find(system, codes[c]);
      if id.Some? && id.value != "" {
        refs := refs + [Reference(id.value)];
      }
    }
    assert codes[..|codes|] == codes;
  }

  /** The outer `forEach` of `migrateDocument` over the `[system, codes]`
      entries; a classification object that is missing, or a code list that
      is not an array, contributes nothing. */
  method CollectRelatedClassifications(find: (string, string) -> Option<string>,
                                       classifications: Option<seq<SystemCodes>>)
    returns (refs: seq<Reference>)
    ensures classifications.None? ==> refs == []
    ensures classifications.Some? ==> refs == RelatedClassifications(find, classifications.value)
  {
    refs := [];
    if classifications.Some? {
      var entries := classifications.value;
      for e := 0 to |entries|
        invariant refs == RelatedClassifications(find, entries[..e])
      {
        var codes := entries[e].codes;
        if codes.Some? {
          var hits := CollectCodeRefs(find, entries[e].system, codes.value);
          refs := refs + hits;
        }
        assert entries[..e + 1] == entries[..e] + [entries[e]];
        RelatedClassificationsSnoc(find, entries[..e], entries[e]);
      }
      assert entries[..|entries|] == entries;
    }
  }
}
