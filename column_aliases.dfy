/**
 * The add-in's column mapping (taskpane.js): normalising labels, the alias
 * lists of the Excel headers, and the map from each Excel header to the
 * server field it takes its values from (normalizeLabel, columnAliases and
 * createHeaderMapWithAliases).
 */
module ColumnAliases {
  import opened Wrappers
  import opened UnicodeText

  // ---------------------------------------------------------------- JavaScript objects

  /** The one error the modelled code can raise. */
  datatype JsError = TypeError

  /**
   * The properties every plain object inherits from Object.prototype. Reading
   * one of these names from an object that lacks an own property of that name
   * yields a function (or, for __proto__, Object.prototype itself): a truthy
   * value that is neither a string nor an array.
   */
  const ObjectPrototypeNames: set<string> := {
    "constructor", "__defineGetter__", "__defineSetter__", "hasOwnProperty",
    "__lookupGetter__", "__lookupSetter__", "isPrototypeOf", "propertyIsEnumerable",
    "toString", "valueOf", "__proto__", "toLocaleString"
  }

  predicate IsProtoName(s: string) {
    s in ObjectPrototypeNames
  }

  // ---------------------------------------------------------------- normalizeLabel

  /** What the expression /[^a-z0-9]/gi spares: ASCII letters of either case and the digits. */
  predicate IsAsciiAlnum(c: char) {
    'a' <= c <= 'z' || 'A' <= c <= 'Z' || '0' <= c <= '9'
  }

  /** The characters of a normalised label. */
  predicate IsLabelChar(c: char) {
    'a' <= c <= 'z' || '0' <= c <= '9'
  }

  /** s.replace(/[^a-z0-9]/gi, ""): the ASCII letters and digits of s, in order. */
  function KeepAlnum(s: string): (r: string)
    ensures |r| <= |s|
    ensures forall i :: 0 <= i < |r| ==> IsAsciiAlnum(r[i])
    ensures forall c :: c in r ==> c in s
  {
    if |s| == 0 then []
    else
      var rest := KeepAlnum(s[1..]);
      assert forall c :: c in rest ==> c in s;
      (if IsAsciiAlnum(s[0]) then [s[0]] else []) + rest
  }

  /** normalizeLabel(label): lower-cased, then stripped of everything but ASCII letters and digits. */
  function NormalizeLabel(name: string): (r: string)
    ensures |r| <= |ToLower(name)|
    ensures forall i :: 0 <= i < |r| ==> IsLabelChar(r[i])
  {
    LowerHasNoCapitals(name);
    var r := KeepAlnum(ToLower(name));
    assert forall i :: 0 <= i < |r| ==> r[i] in ToLower(name);
    r
  }

  /** No ASCII capital survives lower-casing. */
  lemma {:induction false} LowerHasNoCapitals(s: string)
    ensures forall c :: c in ToLower(s) ==> !('A' <= c <= 'Z')
  {
    if |s| > 0 {
      LowerHasNoCapitals(s[1..]);
      assert ToLower(s) == LowerChar(s[0]) + ToLower(s[1..]);
    }
  }

  /** Lower-casing leaves a normalised label as it is. */
  lemma {:induction false} LowerOfLabel(s: string)
    requires forall i :: 0 <= i < |s| ==> IsLabelChar(s[i])
    ensures ToLower(s) == s
  {
    if |s| > 0 {
      LowerOfLabel(s[1..]);
      assert [s[0]] + s[1..] == s;
    }
  }

  /** The filter leaves a string of letters and digits as it is. */
  lemma {:induction false} KeepAllAlnum(s: string)
    requires forall i :: 0 <= i < |s| ==> IsAsciiAlnum(s[i])
    ensures KeepAlnum(s) == s
  {
    if |s| > 0 {
      KeepAllAlnum(s[1..]);
      assert [s[0]] + s[1..] == s;
    }
  }

  /** Normalising a normalised label changes nothing. */
  lemma NormalizeIdempotent(name: string)
    ensures NormalizeLabel(NormalizeLabel(name)) == NormalizeLabel(name)
  {
    var n := NormalizeLabel(name);
    LowerOfLabel(n);
    KeepAllAlnum(n);
  }

  // ---------------------------------------------------------------- columnAliases

  /** columnAliases: for each Excel header the spellings under which the server may deliver its column. */
  const ColumnAliasMap: map<string, seq<string>> := map[
    "Kabelnummer" := ["kabelnummer", "kabel-nr", "kabelnr", "knr", "kabnr"],
    "Kabeltyp" := ["typ", "kabel-typ", "kabeltype"],
    "Trommelnummer" := ["trommelnummer", "trommel-nr", "trommel-nummer"],
    "Durchmesser" := ["durchmesser", "\U{F8}", "dm", "\U{F8}mm", "\U{D8}mm", "\U{D8}"],
    "von Ort" := ["von ort"],
    "bis Ort" := ["bis ort"],
    "von km" := ["von km", "von kilometer"],
    "bis km" := ["bis km", "bis kilometer"],
    "Metr. (von)" := ["metr. von"],
    "Metr. (bis)" := ["metr. bis"],
    "SOLL" := ["soll"],
    "IST" := ["ist"],
    "Verlegeart" := ["verlegeart"],
    "Bemerkung" := ["bemerkung", "bemerkungen"]
  ]

  /** No alias of the list normalises to "constructor". */
  predicate ListSafe(aliasList: seq<string>) {
    forall i :: 0 <= i < |aliasList| ==> NormalizeLabel(aliasList[i]) != "constructor"
  }

  /**
   * The alias tables the mapping is modelled for: none has an own key
   * __proto__ (an object literal cannot have one), and no alias normalises
   * to "constructor", the one inherited name a normalised label can spell.
   */
  predicate AliasesSafe(aliases: map<string, seq<string>>) {
    "__proto__" !in aliases && forall k :: k in aliases ==> ListSafe(aliases[k])
  }

  /** The keys of columnAliases. */
  lemma ColumnAliasKeys()
    ensures forall k :: k in ColumnAliasMap ==>
      k == "Kabelnummer" || k == "Kabeltyp" || k == "Trommelnummer" || k == "Durchmesser"
      || k == "von Ort" || k == "bis Ort" || k == "von km" || k == "bis km"
      || k == "Metr. (von)" || k == "Metr. (bis)" || k == "SOLL" || k == "IST"
      || k == "Verlegeart" || k == "Bemerkung"
  {
  }

  // One lemma per header of columnAliases: each list is checked on its own,
  // since the letters of many literal strings at once swamp the solver.
  // The diameter aliases have no o; every other alias has no c.

  lemma KabelnummerAliasesSafe() ensures ListSafe(ColumnAliasMap["Kabelnummer"]) {
    NoConstructor(ColumnAliasMap["Kabelnummer"], 'c');
  }

  lemma KabeltypAliasesSafe() ensures ListSafe(ColumnAliasMap["Kabeltyp"]) {
    NoConstructor(ColumnAliasMap["Kabeltyp"], 'c');
  }

  lemma TrommelnummerAliasesSafe() ensures ListSafe(ColumnAliasMap["Trommelnummer"]) {
    NoConstructor(ColumnAliasMap["Trommelnummer"], 'c');
  }

  lemma DurchmesserAliasesSafe() ensures ListSafe(ColumnAliasMap["Durchmesser"]) {
    NoConstructor(ColumnAliasMap["Durchmesser"], 'o');
  }

  lemma VonOrtAliasesSafe() ensures ListSafe(ColumnAliasMap["von Ort"]) {
    NoConstructor(ColumnAliasMap["von Ort"], 'c');
  }

  lemma BisOrtAliasesSafe() ensures ListSafe(ColumnAliasMap["bis Ort"]) {
    NoConstructor(ColumnAliasMap["bis Ort"], 'c');
  }

  lemma VonKmAliasesSafe() ensures ListSafe(ColumnAliasMap["von km"]) {
    NoConstructor(ColumnAliasMap["von km"], 'c');
  }

  lemma BisKmAliasesSafe() ensures ListSafe(ColumnAliasMap["bis km"]) {
    NoConstructor(ColumnAliasMap["bis km"], 'c');
  }

  lemma MetrVonAliasesSafe() ensures ListSafe(ColumnAliasMap["Metr. (von)"]) {
    NoConstructor(ColumnAliasMap["Metr. (von)"], 'c');
  }

  lemma MetrBisAliasesSafe() ensures ListSafe(ColumnAliasMap["Metr. (bis)"]) {
    NoConstructor(ColumnAliasMap["Metr. (bis)"], 'c');
  }

  lemma SollAliasesSafe() ensures ListSafe(ColumnAliasMap["SOLL"]) {
    NoConstructor(ColumnAliasMap["SOLL"], 'c');
  }

  lemma IstAliasesSafe() ensures ListSafe(ColumnAliasMap["IST"]) {
    NoConstructor(ColumnAliasMap["IST"], 'c');
  }

  lemma VerlegeartAliasesSafe() ensures ListSafe(ColumnAliasMap["Verlegeart"]) {
    NoConstructor(ColumnAliasMap["Verlegeart"], 'c');
  }

  lemma BemerkungAliasesSafe() ensures ListSafe(ColumnAliasMap["Bemerkung"]) {
    NoConstructor(ColumnAliasMap["Bemerkung"], 'c');
  }

  /** columnAliases is a table the mapping is modelled for. */
  lemma ColumnAliasesSafe()
    ensures AliasesSafe(ColumnAliasMap)
  {
    forall k | k in ColumnAliasMap ensures ListSafe(ColumnAliasMap[k]) {
      ColumnAliasKeys();
      if k == "Kabelnummer" {
        KabelnummerAliasesSafe();
      } else if k == "Kabeltyp" {
        KabeltypAliasesSafe();
      } else if k == "Trommelnummer" {
        TrommelnummerAliasesSafe();
      } else if k == "Durchmesser" {
        DurchmesserAliasesSafe();
      } else if k == "von Ort" {
        VonOrtAliasesSafe();
      } else if k == "bis Ort" {
        BisOrtAliasesSafe();
      } else if k == "von km" {
        VonKmAliasesSafe();
      } else if k == "bis km" {
        BisKmAliasesSafe();
      } else if k == "Metr. (von)" {
        MetrVonAliasesSafe();
      } else if k == "Metr. (bis)" {
        MetrBisAliasesSafe();
      } else if k == "SOLL" {
        SollAliasesSafe();
      } else if k == "IST" {
        IstAliasesSafe();
      } else if k == "Verlegeart" {
        VerlegeartAliasesSafe();
      } else {
        BemerkungAliasesSafe();
      }
    }
  }

  /** A list none of whose aliases has the letter t of "constructor", in either case, is safe. */
  lemma NoConstructor(aliasList: seq<string>, t: char)
    requires t == 'c' || t == 'o'
    requires forall i :: 0 <= i < |aliasList| ==> t !in aliasList[i] && (t as int - 32) as char !in aliasList[i]
    ensures ListSafe(aliasList)
  {
    forall i | 0 <= i < |aliasList| ensures NormalizeLabel(aliasList[i]) != "constructor" {
      LetterAbsent(aliasList[i], t);
      assert "constructor"[0] == 'c' && "constructor"[1] == 'o';
    }
  }

  /** A lower-case letter other than i and k that is in neither case in s is not in its normal form. */
  lemma LetterAbsent(s: string, t: char)
    requires 'a' <= t <= 'z' && t != 'i' && t != 'k'
    requires t !in s && (t as int - 32) as char !in s
    ensures t !in NormalizeLabel(s)
  {
    LetterAbsentLower(s, t);
  }

  lemma {:induction false} LetterAbsentLower(s: string, t: char)
    requires 'a' <= t <= 'z' && t != 'i' && t != 'k'
    requires t !in s && (t as int - 32) as char !in s
    ensures t !in ToLower(s)
  {
    if |s| > 0 {
      assert s[0] != t && s[0] != (t as int - 32) as char;
      assert t !in LowerChar(s[0]);
      assert forall c :: c in s[1..] ==> c in s;
      LetterAbsentLower(s[1..], t);
      assert ToLower(s) == LowerChar(s[0]) + ToLower(s[1..]);
    }
  }

  // ---------------------------------------------------------------- normMapped

  /** The normal form as a function value. */
  function LabelKey(): string -> string {
    name => NormalizeLabel(name)
  }

  /**
   * A dictionary filled by keys[i] under key(keys[i]) in list order: a later
   * key with the same image overwrites an earlier one.
   */
  function IndexBy(key: string -> string, keys: seq<string>): map<string, string>
  {
    if |keys| == 0 then map[]
    else IndexBy(key, keys[..|keys| - 1])[key(keys[|keys| - 1]) := keys[|keys| - 1]]
  }

  /** normMapped: every mapped key under its normal form, the last one winning. */
  function NormIndex(keys: seq<string>): map<string, string> {
    IndexBy(LabelKey(), keys)
  }

  /**
   * normMapped holds exactly the normal forms of the mapped keys, and under
   * each the last mapped key in list order with that normal form.
   */
  lemma NormIndexLastWins(keys: seq<string>, n: string)
    ensures n in NormIndex(keys) <==> exists i :: 0 <= i < |keys| && NormalizeLabel(keys[i]) == n
    ensures n in NormIndex(keys) ==> exists i :: (0 <= i < |keys| && NormIndex(keys)[n] == keys[i]
      && NormalizeLabel(keys[i]) == n
      && forall j :: i < j < |keys| ==> NormalizeLabel(keys[j]) != n)
  {
    IndexNames(LabelKey(), keys, n);
    if n in NormIndex(keys) {
      IndexLast(LabelKey(), keys, n);
    }
  }

  lemma {:induction false} IndexNames(key: string -> string, keys: seq<string>, n: string)
    ensures n in IndexBy(key, keys) <==> exists i :: 0 <= i < |keys| && key(keys[i]) == n
  {
    if |keys| > 0 {
      var last := |keys| - 1;
      var init := keys[..last];
      IndexNames(key, init, n);
      if key(keys[last]) == n {
        assert 0 <= last < |keys| && key(keys[last]) == n;
      } else if exists i :: 0 <= i < |keys| && key(keys[i]) == n {
        var i :| 0 <= i < |keys| && key(keys[i]) == n;
        assert i < last && init[i] == keys[i];
      }
    }
  }

  lemma {:induction false} IndexLast(key: string -> string, keys: seq<string>, n: string)
    requires n in IndexBy(key, keys)
    ensures exists i :: (0 <= i < |keys| && IndexBy(key, keys)[n] == keys[i]
      && key(keys[i]) == n
      && forall j :: i < j < |keys| ==> key(keys[j]) != n)
  {
    var last := |keys| - 1;
    var init := keys[..last];
    if key(keys[last]) == n {
      assert IndexBy(key, keys)[n] == keys[last];
    } else {
      assert n in IndexBy(key, init);
      IndexLast(key, init, n);
      var i :| 0 <= i < |init| && IndexBy(key, init)[n] == init[i]
        && key(init[i]) == n
        && forall j :: i < j < |init| ==> key(init[j]) != n;
      assert init[i] == keys[i];
      assert forall j :: i < j < last ==> init[j] == keys[j];
      assert IndexBy(key, keys)[n] == keys[i];
    }
  }

  /** Every entry of normMapped is a mapped key whose normal form is the entry's name. */
  lemma NormIndexSound(keys: seq<string>, n: string)
    requires n in NormIndex(keys)
    ensures NormIndex(keys)[n] in keys && NormalizeLabel(NormIndex(keys)[n]) == n
  {
    NormIndexLastWins(keys, n);
  }

  // ---------------------------------------------------------------- the alias search

  /** normMapped[normalizeLabel(alias)] when it is truthy: a present, non-empty mapped key. */
  function AliasTarget(nm: map<string, string>, alias: string): Option<string> {
    var n := NormalizeLabel(alias);
    if n in nm && nm[n] != "" then Some(nm[n]) else None
  }

  /** The inner loop from alias a on: the target of the first alias that has one. */
  function FirstAliasFrom(nm: map<string, string>, aliasList: seq<string>, a: nat): (r: Option<string>)
    requires a <= |aliasList|
    ensures r.Some? ==> exists i :: (a <= i < |aliasList| && AliasTarget(nm, aliasList[i]) == r
      && forall j :: a <= j < i ==> AliasTarget(nm, aliasList[j]).None?)
    ensures r.None? ==> forall i :: a <= i < |aliasList| ==> AliasTarget(nm, aliasList[i]).None?
    decreases |aliasList| - a
  {
    if a == |aliasList| then None
    else if AliasTarget(nm, aliasList[a]).Some? then AliasTarget(nm, aliasList[a])
    else FirstAliasFrom(nm, aliasList, a + 1)
  }

  /**
   * What the source assigns for a header whose trimmed text is `cleaned`,
   * or the TypeError it raises: aliases[cleaned] is the own alias list when
   * there is one; an inherited member is truthy and not iterable.
   */
  function AliasLookup(nm: map<string, string>, aliases: map<string, seq<string>>, cleaned: string): Result<Option<string>, JsError> {
    if cleaned in aliases then Ok(FirstAliasFrom(nm, aliases[cleaned], 0))
    else if IsProtoName(cleaned) then Err(TypeError)
    else Ok(None)
  }

  /** What the lookup evidently intends: only own keys of the alias table have alias lists. */
  function OwnAliasLookup(nm: map<string, string>, aliases: map<string, seq<string>>, cleaned: string): Option<string> {
    if cleaned in aliases then FirstAliasFrom(nm, aliases[cleaned], 0) else None
  }

  // ---------------------------------------------------------------- excelMap

  type HeaderTable = map<string, Option<string>>

  /** How the value of one header is found: the lookup of its trimmed text. */
  type Lookup = string -> Result<Option<string>, JsError>

  function AsWrittenLookup(nm: map<string, string>, aliases: map<string, seq<string>>): Lookup {
    c => AliasLookup(nm, aliases, c)
  }

  function OwnKeysLookup(nm: map<string, string>, aliases: map<string, seq<string>>): Lookup {
    c => Ok(OwnAliasLookup(nm, aliases, c))
  }

  /** Header i gets an entry: it is defined and not blank after trim(). */
  predicate Entered(headers: seq<Option<string>>, i: nat)
    requires i < |headers|
  {
    headers[i].Some? && JsTrim(headers[i].value) != ""
  }

  /** The header loop from header j on, filling acc; the error of the first lookup that raises. */
  function AddHeadersFrom(acc: HeaderTable, headers: seq<Option<string>>, j: nat, lookup: Lookup): Result<HeaderTable, JsError>
    requires j <= |headers|
    decreases |headers| - j
  {
    if j == |headers| then Ok(acc)
    else if !Entered(headers, j) then AddHeadersFrom(acc, headers, j + 1, lookup)
    else
      match lookup(JsTrim(headers[j].value))
      case Err(e) => Err(e)
      case Ok(v) => AddHeadersFrom(acc[headers[j].value := v], headers, j + 1, lookup)
  }

  /** createHeaderMapWithAliases(excelHeaders, mappedKeys, aliases), as written. */
  function HeaderMapWithAliases(headers: seq<Option<string>>, mappedKeys: seq<string>, aliases: map<string, seq<string>>): Result<HeaderTable, JsError> {
    AddHeadersFrom(map[], headers, 0, AsWrittenLookup(NormIndex(mappedKeys), aliases))
  }

  /** The same map with only own keys of the alias table consulted. */
  function HeaderMapOwnAliases(headers: seq<Option<string>>, mappedKeys: seq<string>, aliases: map<string, seq<string>>): Result<HeaderTable, JsError> {
    AddHeadersFrom(map[], headers, 0, OwnKeysLookup(NormIndex(mappedKeys), aliases))
  }

  lemma {:induction false} AddHeadersOk(acc: HeaderTable, headers: seq<Option<string>>, j: nat, lookup: Lookup)
    requires j <= |headers|
    ensures AddHeadersFrom(acc, headers, j, lookup).Ok? <==>
      forall i :: j <= i < |headers| && Entered(headers, i) ==> lookup(JsTrim(headers[i].value)).Ok?
    decreases |headers| - j
  {
    if j < |headers| {
      AddHeadersStep(acc, headers, j, lookup);
      if Entered(headers, j) && lookup(JsTrim(headers[j].value)).Ok? {
        AddHeadersOk(acc[headers[j].value := lookup(JsTrim(headers[j].value)).value], headers, j + 1, lookup);
      } else if !Entered(headers, j) {
        AddHeadersOk(acc, headers, j + 1, lookup);
      }
    }
  }

  /** Some header from j on is entered and reads k. */
  ghost predicate EnteredFrom(headers: seq<Option<string>>, j: nat, k: string) {
    exists i :: j <= i < |headers| && Entered(headers, i) && headers[i].value == k
  }

  lemma EnteredFromStep(headers: seq<Option<string>>, j: nat, k: string)
    requires j < |headers|
    ensures EnteredFrom(headers, j, k) <==>
      (Entered(headers, j) && headers[j].value == k) || EnteredFrom(headers, j + 1, k)
  {
    if EnteredFrom(headers, j, k) && !(Entered(headers, j) && headers[j].value == k) {
      var i :| j <= i < |headers| && Entered(headers, i) && headers[i].value == k;
      assert j + 1 <= i;
    }
  }

  /** The keys of the map: those already there and every entered header, untrimmed. */
  lemma {:induction false} AddHeadersKeys(acc: HeaderTable, headers: seq<Option<string>>, j: nat, lookup: Lookup, k: string)
    requires j <= |headers| && AddHeadersFrom(acc, headers, j, lookup).Ok?
    ensures k in AddHeadersFrom(acc, headers, j, lookup).value <==> k in acc || EnteredFrom(headers, j, k)
    decreases |headers| - j
  {
    if j < |headers| {
      EnteredFromStep(headers, j, k);
      if Entered(headers, j) {
        var h := headers[j].value;
        var acc' := acc[h := lookup(JsTrim(h)).value];
        assert AddHeadersFrom(acc, headers, j, lookup) == AddHeadersFrom(acc', headers, j + 1, lookup);
        AddHeadersKeys(acc', headers, j + 1, lookup, k);
      } else {
        assert AddHeadersFrom(acc, headers, j, lookup) == AddHeadersFrom(acc, headers, j + 1, lookup);
        AddHeadersKeys(acc, headers, j + 1, lookup, k);
      }
    }
  }

  /** Every entry holds what the lookup gives for its trimmed key, whichever occurrence wrote it last. */
  lemma {:induction false} AddHeadersValues(acc: HeaderTable, headers: seq<Option<string>>, j: nat, lookup: Lookup, k: string)
    requires j <= |headers| && AddHeadersFrom(acc, headers, j, lookup).Ok?
    requires forall h :: h in acc ==> lookup(JsTrim(h)) == Ok(acc[h])
    requires k in AddHeadersFrom(acc, headers, j, lookup).value
    ensures lookup(JsTrim(k)) == Ok(AddHeadersFrom(acc, headers, j, lookup).value[k])
    decreases |headers| - j
  {
    if j < |headers| {
      if Entered(headers, j) {
        var h := headers[j].value;
        var acc' := acc[h := lookup(JsTrim(h)).value];
        assert AddHeadersFrom(acc, headers, j, lookup) == AddHeadersFrom(acc', headers, j + 1, lookup);
        forall g | g in acc' ensures lookup(JsTrim(g)) == Ok(acc'[g]) {
          if g != h {
            assert acc'[g] == acc[g];
          }
        }
        AddHeadersValues(acc', headers, j + 1, lookup, k);
      } else {
        assert AddHeadersFrom(acc, headers, j, lookup) == AddHeadersFrom(acc, headers, j + 1, lookup);
        AddHeadersValues(acc, headers, j + 1, lookup, k);
      }
    }
  }

  /** An entry whose trimmed header has no own alias list, or none of whose aliases hits, is null. */
  predicate AliasResolved(nm: map<string, string>, aliases: map<string, seq<string>>, cleaned: string, v: Option<string>) {
    if cleaned in aliases then v == FirstAliasFrom(nm, aliases[cleaned], 0) else v.None?
  }

  /**
   * createHeaderMapWithAliases raises exactly when some entered header, once
   * trimmed, is an inherited member name of Object.prototype but no key of
   * the alias table; otherwise it has one entry per entered header, keyed
   * by its untrimmed text, holding the target of the first alias of its
   * trimmed text that hits (null when that text is no alias key).
   */
  lemma HeaderMapContents(headers: seq<Option<string>>, mappedKeys: seq<string>, aliases: map<string, seq<string>>, k: string)
    ensures HeaderMapWithAliases(headers, mappedKeys, aliases).Err? <==>
      exists i :: 0 <= i < |headers| && Entered(headers, i)
        && IsProtoName(JsTrim(headers[i].value)) && JsTrim(headers[i].value) !in aliases
    ensures HeaderMapWithAliases(headers, mappedKeys, aliases).Ok? ==>
      (k in HeaderMapWithAliases(headers, mappedKeys, aliases).value <==>
        exists i :: 0 <= i < |headers| && Entered(headers, i) && headers[i].value == k)
    ensures HeaderMapWithAliases(headers, mappedKeys, aliases).Ok? && k in HeaderMapWithAliases(headers, mappedKeys, aliases).value ==>
      AliasResolved(NormIndex(mappedKeys), aliases, JsTrim(k), HeaderMapWithAliases(headers, mappedKeys, aliases).value[k])
  {
    var nm := NormIndex(mappedKeys);
    var lookup := AsWrittenLookup(nm, aliases);
    AddHeadersOk(map[], headers, 0, lookup);
    var r := HeaderMapWithAliases(headers, mappedKeys, aliases);
    if r.Ok? {
      AddHeadersKeys(map[], headers, 0, lookup, k);
      if k in r.value {
        AddHeadersValues(map[], headers, 0, lookup, k);
      }
    } else {
      var i :| 0 <= i < |headers| && Entered(headers, i) && lookup(JsTrim(headers[i].value)).Err?;
      assert AliasLookup(nm, aliases, JsTrim(headers[i].value)).Err?;
    }
  }

  /**
   * A value of the map is null or a mapped key, namely the last mapped key
   * whose normal form is the normal form of the first alias that hits.
   */
  lemma HeaderMapValuesAreMappedKeys(nm: map<string, string>, mappedKeys: seq<string>, aliasList: seq<string>)
    requires nm == NormIndex(mappedKeys)
    ensures FirstAliasFrom(nm, aliasList, 0).Some? ==>
      FirstAliasFrom(nm, aliasList, 0).value in mappedKeys
      && exists i :: (0 <= i < |aliasList|
        && NormalizeLabel(FirstAliasFrom(nm, aliasList, 0).value) == NormalizeLabel(aliasList[i])
        && forall j :: 0 <= j < i ==> AliasTarget(nm, aliasList[j]).None?)
  {
    if FirstAliasFrom(nm, aliasList, 0).Some? {
      var i :| 0 <= i < |aliasList| && AliasTarget(nm, aliasList[i]) == FirstAliasFrom(nm, aliasList, 0)
        && forall j :: 0 <= j < i ==> AliasTarget(nm, aliasList[j]).None?;
      NormIndexSound(mappedKeys, NormalizeLabel(aliasList[i]));
    }
  }

  /** The corrected mapping never raises, and agrees with the source whenever the source does not raise. */
  lemma OwnAliasesAgree(headers: seq<Option<string>>, mappedKeys: seq<string>, aliases: map<string, seq<string>>)
    ensures HeaderMapOwnAliases(headers, mappedKeys, aliases).Ok?
    ensures HeaderMapWithAliases(headers, mappedKeys, aliases).Ok? ==>
      HeaderMapOwnAliases(headers, mappedKeys, aliases) == HeaderMapWithAliases(headers, mappedKeys, aliases)
  {
    var nm := NormIndex(mappedKeys);
    var written, own := AsWrittenLookup(nm, aliases), OwnKeysLookup(nm, aliases);
    AddHeadersOk(map[], headers, 0, own);
    forall c | written(c).Ok? ensures own(c) == written(c) {
      assert written(c) == AliasLookup(nm, aliases, c);
    }
    AgreeingLookups(map[], headers, 0, written, own);
  }

  /** Two lookups that agree wherever the first does not raise fill the same map when the first never raises. */
  lemma {:induction false} AgreeingLookups(acc: HeaderTable, headers: seq<Option<string>>, j: nat, first: Lookup, second: Lookup)
    requires j <= |headers|
    requires forall c :: first(c).Ok? ==> second(c) == first(c)
    ensures AddHeadersFrom(acc, headers, j, first).Ok? ==>
      AddHeadersFrom(acc, headers, j, second) == AddHeadersFrom(acc, headers, j, first)
    decreases |headers| - j
  {
    if j < |headers| {
      AddHeadersStep(acc, headers, j, first);
      AddHeadersStep(acc, headers, j, second);
      if Entered(headers, j) {
        var c := JsTrim(headers[j].value);
        if first(c).Ok? {
          AgreeingLookups(acc[headers[j].value := first(c).value], headers, j + 1, first, second);
        }
      } else {
        AgreeingLookups(acc, headers, j + 1, first, second);
      }
    }
  }

  /** One header of the loop: skipped when not entered, else its lookup raises or fills its entry. */
  lemma AddHeadersStep(acc: HeaderTable, headers: seq<Option<string>>, j: nat, lookup: Lookup)
    requires j < |headers|
    ensures !Entered(headers, j) ==> AddHeadersFrom(acc, headers, j, lookup) == AddHeadersFrom(acc, headers, j + 1, lookup)
    ensures Entered(headers, j) && lookup(JsTrim(headers[j].value)).Err? ==>
      AddHeadersFrom(acc, headers, j, lookup) == Err(lookup(JsTrim(headers[j].value)).error)
    ensures Entered(headers, j) && lookup(JsTrim(headers[j].value)).Ok? ==>
      AddHeadersFrom(acc, headers, j, lookup) ==
      AddHeadersFrom(acc[headers[j].value := lookup(JsTrim(headers[j].value)).value], headers, j + 1, lookup)
  {
  }

  /** The corrected mapping: an entered header that is no own alias key maps to null. */
  lemma OwnAliasesResolve(headers: seq<Option<string>>, mappedKeys: seq<string>, aliases: map<string, seq<string>>, k: string)
    ensures HeaderMapOwnAliases(headers, mappedKeys, aliases).Ok?
    ensures k in HeaderMapOwnAliases(headers, mappedKeys, aliases).value <==>
      exists i :: 0 <= i < |headers| && Entered(headers, i) && headers[i].value == k
    ensures k in HeaderMapOwnAliases(headers, mappedKeys, aliases).value ==>
      AliasResolved(NormIndex(mappedKeys), aliases, JsTrim(k), HeaderMapOwnAliases(headers, mappedKeys, aliases).value[k])
  {
    var lookup := OwnKeysLookup(NormIndex(mappedKeys), aliases);
    AddHeadersOk(map[], headers, 0, lookup);
    AddHeadersKeys(map[], headers, 0, lookup, k);
    if k in HeaderMapOwnAliases(headers, mappedKeys, aliases).value {
      AddHeadersValues(map[], headers, 0, lookup, k);
    }
  }

  /** A text with no white space at either end is its own trim(). */
  lemma TrimmedAlready(s: string)
    requires |s| > 0 && !IsJsWhitespace(s[0]) && !IsJsWhitespace(s[|s| - 1])
    ensures JsTrim(s) == s
  {
  }

  /** The inherited names are non-blank, and begin and end with a lower-case letter or an underscore. */
  lemma ProtoNameTrimmed(s: string)
    requires IsProtoName(s)
    ensures s != "" && JsTrim(s) == s
  {
    assert |s| > 0 && (s[0] == '_' || 'a' <= s[0] <= 'z') && (s[|s| - 1] == '_' || 'a' <= s[|s| - 1] <= 'z');
    TrimmedAlready(s);
  }

  /** The header toString, which no alias list is registered for, makes the source raise. */
  lemma ToStringHeaderRaises()
    ensures HeaderMapWithAliases([Some("toString")], [], ColumnAliasMap).Err?
  {
    TrimmedAlready("toString");
    assert Entered([Some("toString")], 0);
    assert AsWrittenLookup(NormIndex([]), ColumnAliasMap)("toString") == Err(TypeError);
  }

  /** With only own alias keys consulted, the header toString maps to null. */
  lemma ToStringHeaderMapsToNull()
    ensures HeaderMapOwnAliases([Some("toString")], [], ColumnAliasMap) == Ok(map["toString" := None])
  {
    TrimmedAlready("toString");
    assert Entered([Some("toString")], 0);
    assert "toString" !in ColumnAliasMap;
    assert OwnKeysLookup(NormIndex([]), ColumnAliasMap)("toString") == Ok(None);
  }

  // ---------------------------------------------------------------- the method

  /**
   * createHeaderMapWithAliases: builds normMapped, then walks the Excel
   * headers, searching each alias list with an early break.
   */
  method CreateHeaderMapWithAliases(excelHeaders: seq<Option<string>>, mappedKeys: seq<string>, aliases: map<string, seq<string>>)
    returns (result: Result<HeaderTable, JsError>)
    requires AliasesSafe(aliases)
    ensures result == HeaderMapWithAliases(excelHeaders, mappedKeys, aliases)
  {
    var normMapped := NormalizeMappedKeys(mappedKeys);
    ghost var lookup := AsWrittenLookup(normMapped, aliases);

    var excelMap: HeaderTable := map[];
    var j := 0;
    while j < |excelHeaders|
      invariant 0 <= j <= |excelHeaders|
      invariant AddHeadersFrom(excelMap, excelHeaders, j, lookup) == HeaderMapWithAliases(excelHeaders, mappedKeys, aliases)
    {
      AddHeadersStep(excelMap, excelHeaders, j, lookup);
      if Entered(excelHeaders, j) {
        var excelHeader := excelHeaders[j].value;
        var cleaned := JsTrim(excelHeader);
        AsWrittenStep(excelMap, excelHeaders, j, normMapped, aliases);
        var aliasList: seq<string>;
        if cleaned in aliases {
          aliasList := aliases[cleaned];
        } else if IsProtoName(cleaned) {
          return Err(TypeError);
        } else {
          aliasList := [];
        }
        var found := FirstAliasHit(normMapped, aliasList);
        excelMap := excelMap[excelHeader := found];
      }
      j := j + 1;
    }
    result := Ok(excelMap);
  }

  /** One entered header under the lookup as written, by where its trimmed text is found. */
  lemma AsWrittenStep(acc: HeaderTable, headers: seq<Option<string>>, j: nat, nm: map<string, string>, aliases: map<string, seq<string>>)
    requires j < |headers| && Entered(headers, j)
    ensures JsTrim(headers[j].value) in aliases ==>
      AddHeadersFrom(acc, headers, j, AsWrittenLookup(nm, aliases)) ==
      AddHeadersFrom(acc[headers[j].value := FirstAliasFrom(nm, aliases[JsTrim(headers[j].value)], 0)], headers, j + 1, AsWrittenLookup(nm, aliases))
    ensures JsTrim(headers[j].value) !in aliases && IsProtoName(JsTrim(headers[j].value)) ==>
      AddHeadersFrom(acc, headers, j, AsWrittenLookup(nm, aliases)) == Err(TypeError)
    ensures JsTrim(headers[j].value) !in aliases && !IsProtoName(JsTrim(headers[j].value)) ==>
      AddHeadersFrom(acc, headers, j, AsWrittenLookup(nm, aliases)) ==
      AddHeadersFrom(acc[headers[j].value := None], headers, j + 1, AsWrittenLookup(nm, aliases))
  {
    AddHeadersStep(acc, headers, j, AsWrittenLookup(nm, aliases));
  }

  /** The first loop of createHeaderMapWithAliases: each mapped key under its normalised label, the later key winning. */
  method NormalizeMappedKeys(mappedKeys: seq<string>) returns (normMapped: map<string, string>)
    ensures normMapped == NormIndex(mappedKeys)
  {
    normMapped := map[];
    var k := 0;
    while k < |mappedKeys|
      invariant 0 <= k <= |mappedKeys|
      invariant normMapped == NormIndex(mappedKeys[..k])
    {
      assert mappedKeys[..k + 1][..k] == mappedKeys[..k];
      normMapped := normMapped[NormalizeLabel(mappedKeys[k]) := mappedKeys[k]];
      k := k + 1;
    }
    assert mappedKeys[..k] == mappedKeys;
  }

  /** The alias loop with its early break: the target of the first alias that hits. */
  method FirstAliasHit(normMapped: map<string, string>, aliasList: seq<string>) returns (found: Option<string>)
    ensures found == FirstAliasFrom(normMapped, aliasList, 0)
  {
    found := None;
    var a := 0;
    while a < |aliasList|
      invariant 0 <= a <= |aliasList|
      invariant found.None?
      invariant FirstAliasFrom(normMapped, aliasList, a) == FirstAliasFrom(normMapped, aliasList, 0)
    {
      var normAlias := NormalizeLabel(aliasList[a]);
      if normAlias in normMapped && normMapped[normAlias] != "" {
        found := Some(normMapped[normAlias]);
        assert found == AliasTarget(normMapped, aliasList[a]);
        break;
      }
      assert AliasTarget(normMapped, aliasList[a]).None?;
      a := a + 1;
    }
  }
}
