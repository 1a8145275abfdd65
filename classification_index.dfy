/** The classification side of the document migration: the catalogue of
    classification entries, the lookup index `system|code -> id` built from
    it, and the lookup of a document's free-text code under the aliased
    system name. */
module ClassificationIndex {
  import opened Wrappers
  import opened JsString

  /** One entry of the classification catalogue. */
  datatype Classification = Classification(system: string, code: string, id: string)

  // ---------------------------------------------------------------------
  // Classification codes
  // ---------------------------------------------------------------------

  /** `[–-]`: an en dash or a hyphen. */
  predicate IsDash(c: char) {
    c == '-' || c == '\U{2013}'
  }

  /** `[A-Z0-9.\s]` under the `i` flag. */
  predicate IsCodeChar(c: char) {
    IsAsciiLetter(c) || IsDigit(c) || c == '.' || IsWhitespace(c)
  }

  /** `^([A-Z0-9.\s]+)\s*[–-]\s*` (flag `i`) matches with a group of the first
      `k` characters, then `w` whitespace characters, then a dash (the
      trailing `\s*` always matches). */
  predicate CodeMatch(s: string, k: int, w: int) {
    1 <= k && 0 <= w && k + w < |s|
    && (forall i :: 0 <= i < k ==> IsCodeChar(s[i]))
    && (forall i :: k <= i < k + w ==> IsWhitespace(s[i]))
    && IsDash(s[k + w])
  }

  /** Every match ends exactly where the leading run of code characters
      ends, and that run is followed by a dash. */
  lemma CodeMatchEndsRun(s: string, k: nat, w: nat)
    requires CodeMatch(s, k, w)
    ensures k + w == Span(s, 0, IsCodeChar)
  {
    SpanIsLongest(s, 0, IsCodeChar, k + w);
    assert !IsCodeChar(s[k + w]);
  }

  /** `parseClassificationCode(fullCode)`: when the pattern matches, its
      greedy group (the longest one that admits a match) without surrounding
      whitespace; otherwise the text before the first space. */
  function ParseClassificationCode(fullCode: string): string {
    var n := Span(fullCode, 0, IsCodeChar);
    if 0 < n < |fullCode| && IsDash(fullCode[n]) then Trim(fullCode[..n]) else SplitHead(fullCode, ' ')
  }

  /** What `parseClassificationCode` computes is what the pattern means: when
      it matches, the code is the greedy group (the longest group that admits
      a match) trimmed; when it does not, the text before the first space. */
  lemma ParseClassificationCodeFollowsPattern(fullCode: string)
    ensures (exists k, w :: CodeMatch(fullCode, k, w)) ==>
              exists k :: CodeMatch(fullCode, k, 0) && ParseClassificationCode(fullCode) == Trim(fullCode[..k])
                          && forall k', w' :: CodeMatch(fullCode, k', w') ==> k' <= k
    ensures (forall k, w :: !CodeMatch(fullCode, k, w)) ==> ParseClassificationCode(fullCode) == SplitHead(fullCode, ' ')
  {
    var n := Span(fullCode, 0, IsCodeChar);
    if 0 < n < |fullCode| && IsDash(fullCode[n]) {
      assert CodeMatch(fullCode, n, 0);
      forall k', w' | CodeMatch(fullCode, k', w') ensures k' <= n {
        CodeMatchEndsRun(fullCode, k', w');
      }
    } else {
      forall k, w | CodeMatch(fullCode, k, w) ensures false {
        CodeMatchEndsRun(fullCode, k, w);
      }
    }
  }

  /** Trimming a text that starts with a non-blank and ends in a single
      space drops just that space. */
  lemma TrimOneTrailingSpace(t: string)
    requires |t| >= 2 && !IsWhitespace(t[0]) && t[|t| - 1] == ' ' && !IsWhitespace(t[|t| - 2])
    ensures Trim(t) == t[..|t| - 1]
  {
    assert Span(t, 0, IsWhitespace) == 0;
    assert t[0..] == t;
    assert TrimEnd(t) == TrimEnd(t[..|t| - 1]);
  }

  /** "100 – Immobilienmanagement", or any other text that starts with
      "100 –", is filed under the code "100". */
  lemma NumericCodeExample(s: string)
    requires "100 \U{2013}" <= s
    ensures ParseClassificationCode(s) == "100"
  {
    NumericCodeRun(s);
    assert s[..4] == "100 ";
    TrimOneTrailingSpace("100 ");
    assert "100 "[..3] == "100";
  }

  lemma NumericCodeRun(s: string)
    requires "100 \U{2013}" <= s
    ensures Span(s, 0, IsCodeChar) == 4 && IsDash(s[4])
  {
    var head := "100 \U{2013}";
    assert s[0] == head[0] && s[1] == head[1] && s[2] == head[2] && s[3] == head[3] && s[4] == head[4];
    assert Span(s, 4, IsCodeChar) == 0;
    assert Span(s, 3, IsCodeChar) == 1;
    assert Span(s, 2, IsCodeChar) == 2;
    assert Span(s, 1, IsCodeChar) == 3;
  }

  /** "D 0165 – Dokumentation Hochbau", or any other text that starts with
      "D 0165 –", keeps the space inside its code. */
  lemma SpacedCodeExample(s: string)
    requires "D 0165 \U{2013}" <= s
    ensures ParseClassificationCode(s) == "D 0165"
  {
    SpacedCodeRun(s);
    assert s[..7] == "D 0165 ";
    TrimOneTrailingSpace("D 0165 ");
    assert "D 0165 "[..6] == "D 0165";
  }

  lemma SpacedCodeRun(s: string)
    requires "D 0165 \U{2013}" <= s
    ensures Span(s, 0, IsCodeChar) == 7 && IsDash(s[7])
  {
    var head := "D 0165 \U{2013}";
    assert s[4] == head[4] && s[5] == head[5] && s[6] == head[6] && s[7] == head[7];
    assert Span(s, 7, IsCodeChar) == 0;
    assert Span(s, 6, IsCodeChar) == 1;
    assert Span(s, 5, IsCodeChar) == 2;
    assert Span(s, 4, IsCodeChar) == 3;
    assert s[0] == head[0] && s[1] == head[1] && s[2] == head[2] && s[3] == head[3];
    assert Span(s, 3, IsCodeChar) == 4;
    assert Span(s, 2, IsCodeChar) == 5;
    assert Span(s, 1, IsCodeChar) == 6;
  }

  // ---------------------------------------------------------------------
  // The catalogue index and the lookup
  // ---------------------------------------------------------------------

  /** The alias table from the system names documents use to the names of
      the normalised schema. */
  const SystemMapping: map<string, string> := map[
    "eBKP-H" := "eBKP-H",
    "DIN276" := "DIN276",
    "Uniformat II 2010" := "Uniformat II",
    "Uniformat II" := "Uniformat II",
    "KBOB" := "KBOB",
    "GEFMA" := "GEFMA",
    "SIA" := "SIA",
    "GIF" := "GIF",
    "RCIS" := "RCIS"]

  /** `systemMapping[system] || system`. Of the nine names in the table
      only "Uniformat II 2010" is renamed; every other name, in the table or
      not, comes out unchanged. */
  function MappedSystem(system: string): string {
    if system == "Uniformat II 2010" then "Uniformat II" else system
  }

  /** The short form above is the table lookup with its `|| system`
      pass-through. */
  lemma MappedSystemIsTableLookup(system: string)
    ensures MappedSystem(system)
            == if system in SystemMapping && SystemMapping[system] != "" then SystemMapping[system] else system
  {
  }

  /** The template string `${system}|${code}`. */
  function IndexKey(system: string, code: string): string {
    system + "|" + code
  }

  /** The key an entry is filed under: its own, unaliased system name. */
  function KeyOf(c: Classification): string {
    IndexKey(c.system, c.code)
  }

  /** No later pair sets the key of pair `i` again. */
  ghost predicate IsLastSet<K, V>(pairs: seq<(K, V)>, i: int)
    requires 0 <= i < |pairs|
  {
    forall j :: i < j < |pairs| ==> pairs[j].0 != pairs[i].0
  }

  /** A `Map` after `set(key, value)` for each pair in turn. */
  function MapAfterSets<K, V>(pairs: seq<(K, V)>): map<K, V> {
    if pairs == [] then map[]
    else MapAfterSets(pairs[..|pairs| - 1])[pairs[|pairs| - 1].0 := pairs[|pairs| - 1].1]
  }

  /** A key is present exactly when some pair sets it. */
  lemma {:induction false} MapAfterSetsKeys<K, V>(pairs: seq<(K, V)>, key: K)
    ensures key in MapAfterSets(pairs) <==> exists i :: 0 <= i < |pairs| && pairs[i].0 == key
    decreases |pairs|
  {
    if pairs != [] {
      var n := |pairs| - 1;
      var prefix := pairs[..n];
      MapAfterSetsKeys(prefix, key);
      if key in MapAfterSets(prefix) {
        var i :| 0 <= i < n && prefix[i].0 == key;
        assert pairs[i].0 == key;
      }
      if exists i :: 0 <= i < |pairs| && pairs[i].0 == key {
        var i :| 0 <= i < |pairs| && pairs[i].0 == key;
        if i < n {
          assert prefix[i].0 == key;
        }
      }
    }
  }

  /** A key holds the value of the last pair that sets it. */
  lemma {:induction false} MapAfterSetsLastValue<K, V>(pairs: seq<(K, V)>, i: int)
    requires 0 <= i < |pairs| && IsLastSet(pairs, i)
    ensures pairs[i].0 in MapAfterSets(pairs) && MapAfterSets(pairs)[pairs[i].0] == pairs[i].1
    decreases |pairs|
  {
    var n := |pairs| - 1;
    if i < n {
      var prefix := pairs[..n];
      assert pairs[n].0 != pairs[i].0;
      assert prefix[i] == pairs[i];
      assert IsLastSet(prefix, i);
      MapAfterSetsLastValue(prefix, i);
    }
  }

  /** The `(key, id)` pair each catalogue entry is set with, in catalogue
      order. */
  function CatalogPairs(catalog: seq<Classification>): (pairs: seq<(string, string)>)
    ensures |pairs| == |catalog|
    ensures forall i :: 0 <= i < |catalog| ==> pairs[i] == (KeyOf(catalog[i]), catalog[i].id)
  {
    if catalog == [] then [] else [(KeyOf(catalog[0]), catalog[0].id)] + CatalogPairs(catalog[1..])
  }

  /** The lookup map the catalogue loop leaves behind. */
  function CatalogIndex(catalog: seq<Classification>): map<string, string> {
    MapAfterSets(CatalogPairs(catalog))
  }

  /** No later catalogue entry is filed under the key of entry `i`. */
  ghost predicate IsLastWithKey(catalog: seq<Classification>, i: int)
    requires 0 <= i < |catalog|
  {
    forall j :: i < j < |catalog| ==> KeyOf(catalog[j]) != KeyOf(catalog[i])
  }

  /** The index holds a key exactly when some entry is filed under it, and
      then the id of the last such entry: later entries overwrite earlier
      ones. */
  lemma CatalogIndexLastWins(catalog: seq<Classification>, key: string)
    ensures key in CatalogIndex(catalog) <==> exists i :: 0 <= i < |catalog| && KeyOf(catalog[i]) == key
    ensures forall i :: 0 <= i < |catalog| && KeyOf(catalog[i]) == key && IsLastWithKey(catalog, i)
                        ==> CatalogIndex(catalog)[key] == catalog[i].id
  {
    var pairs := CatalogPairs(catalog);
    MapAfterSetsKeys(pairs, key);
    if exists i :: 0 <= i < |pairs| && pairs[i].0 == key {
      var i :| 0 <= i < |pairs| && pairs[i].0 == key;
      assert KeyOf(catalog[i]) == key;
    }
    if exists i :: 0 <= i < |catalog| && KeyOf(catalog[i]) == key {
      var i :| 0 <= i < |catalog| && KeyOf(catalog[i]) == key;
      assert pairs[i].0 == key;
    }
    forall i | 0 <= i < |catalog| && KeyOf(catalog[i]) == key && IsLastWithKey(catalog, i)
      ensures CatalogIndex(catalog)[key] == catalog[i].id
    {
      assert IsLastSet(pairs, i);
      MapAfterSetsLastValue(pairs, i);
    }
  }

  /** The index build: one `set` per catalogue entry, in catalogue order. */
  method BuildIndex(catalog: seq<Classification>) returns (index: map<string, string>)
    ensures index == CatalogIndex(catalog)
  {
    ghost var pairs := CatalogPairs(catalog);
    index := map[];
    for i := 0 to |catalog|
      invariant index == MapAfterSets(pairs[..i])
    {
      assert pairs[..i + 1][..i] == pairs[..i];
      index := index[KeyOf(catalog[i]) := catalog[i].id];
    }
    assert pairs[..|catalog|] == pairs;
  }

  /** The key a document's `(system, code string)` is looked up under: the
      aliased system name and the parsed code. */
  function LookupKey(system: string, fullCode: string): string {
    IndexKey(MappedSystem(system), ParseClassificationCode(fullCode))
  }

  /** `findClassificationId(system, fullCode)`: the id filed under the lookup
      key, or `None` (JavaScript's `undefined`) on a miss. */
  function FindClassificationId(index: map<string, string>, system: string, fullCode: string): (r: Option<string>)
    ensures r.None? <==> LookupKey(system, fullCode) !in index
    ensures r.Some? ==> r.value == index[LookupKey(system, fullCode)]
  {
    var key := LookupKey(system, fullCode);
    if key in index then Some(index[key]) else None
  }

  /** Against the catalogue itself: a lookup finds an id exactly when some
      entry is filed under the lookup key, and then it is the id of the last
      such entry. */
  lemma FindInCatalog(catalog: seq<Classification>, system: string, fullCode: string)
    ensures FindClassificationId(CatalogIndex(catalog), system, fullCode).None?
            <==> forall i :: 0 <= i < |catalog| ==> KeyOf(catalog[i]) != LookupKey(system, fullCode)
    ensures forall i :: 0 <= i < |catalog| && KeyOf(catalog[i]) == LookupKey(system, fullCode)
                        && IsLastWithKey(catalog, i)
                        ==> FindClassificationId(CatalogIndex(catalog), system, fullCode) == Some(catalog[i].id)
  {
    CatalogIndexLastWins(catalog, LookupKey(system, fullCode));
  }

  /** The index keeps the catalogue's raw system names while the lookup uses
      the aliased one, so an entry filed under the legacy name
      "Uniformat II 2010" is never found by any document system name that
      contains no '|'. */
  lemma LegacyNamedEntryNeverFound(entry: Classification, system: string, fullCode: string)
    requires entry.system == "Uniformat II 2010"
    requires '|' !in system
    ensures KeyOf(entry) != LookupKey(system, fullCode)
  {
    KeysDifferAtFirstBar(MappedSystem(system), ParseClassificationCode(fullCode), entry.system, entry.code);
  }

  /** Two keys whose system parts contain no '|' can only be equal when
      their system parts are. */
  lemma KeysDifferAtFirstBar(a: string, c: string, b: string, d: string)
    requires '|' !in a && '|' !in b && a != b
    ensures IndexKey(a, c) != IndexKey(b, d)
  {
    var lhs := IndexKey(a, c);
    var rhs := IndexKey(b, d);
    if |a| < |b| {
      assert lhs[|a|] == '|' && rhs[|a|] == b[|a|];
    } else if |a| > |b| {
      assert rhs[|b|] == '|' && lhs[|b|] == a[|b|];
    } else {
      assert lhs[..|a|] == a && rhs[..|b|] == b;
    }
  }
}
