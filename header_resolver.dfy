/**
 * The header dictionary of the extraction server and the fuzzy resolver
 * that maps the text of a table cell to one of its canonical fields
 * (HEADER_MAP and match_header in main.py).
 */
module HeaderResolver {
  import opened Wrappers
  import opened UnicodeText

  /** One dictionary entry: a canonical field and its known spellings. */
  datatype HeaderEntry = HeaderEntry(key: string, synonyms: seq<string>)

  /**
   * The similarity test of difflib.get_close_matches at cutoff 0.7, one
   * candidate at a time: close(t, c) holds when the ratio difflib computes
   * between candidate c and the text t reaches 0.7. It is a parameter of
   * the model; its one known property is that every string is close to
   * itself (the ratio of two equal strings is 1.0).
   */
  type Closeness = (string, string) -> bool

  ghost predicate Reflexive(close: Closeness) {
    forall x {:trigger close(x, x)} :: close(x, x)
  }

  /** The dictionary, in the order in which match_header tries its entries. */
  const HeaderMap: seq<HeaderEntry> := [
    HeaderEntry("Kabelnummer", ["kabelnummer", "kabel-nummer", "Kabel-nummer", "Kabel-Nummer", "Kabel-Nr", "Kabel-Nr.", "Kabel-nr", "Kabel-nr.", "kabel-nr", "kabel-nr."]),
    HeaderEntry("Kabeltyp", ["kabeltyp", "typ", "Kabeltype", "Kabel-type", "Kabel-Type"]),
    HeaderEntry("\U{D8}mm", ["durchmesser", "\U{F8}", "\U{D8}", "\U{F8}mm", "mm", "Durchmesser in mm", "durchmesser in mm", "Durch-messer in mm", "durch-messer in mm"]),
    HeaderEntry("Trommelnummer", ["Trommel", "trommelnummer", "Trommel-nummer"]),
    HeaderEntry("von Ort", ["von ort", "start ort"]),
    HeaderEntry("von km", ["von km", "start km", "anfang km"]),
    HeaderEntry("Metr.(von)", ["metr", "meter", "metr.", "Metr."]),
    HeaderEntry("bis Ort", ["bis ort", "ziel ort", "end ort"]),
    HeaderEntry("bis km", ["bis km", "ziel km", "end km"]),
    HeaderEntry("Metr.(bis)", ["metr", "meter", "metr.", "Metr."]),
    HeaderEntry("SOLL", ["soll", "sollwert", "soll m"]),
    HeaderEntry("IST", ["ist", "istwert", "ist m"]),
    HeaderEntry("Verlegeart", ["verlegeart", "verlegung", "verlegungsart"]),
    HeaderEntry("Bemerkung", ["Bemerkungen", "bemerkung", "bemerkungen", "notiz", "kommentar", "Kommentar", "Anmerkung", "anmerkung"])
  ]

  const MetrFrom: string := "Metr.(von)"
  const MetrTo: string := "Metr.(bis)"

  /** The canonical field names of a dictionary. */
  function KeysOf(dict: seq<HeaderEntry>): (ks: set<string>)
    ensures forall i :: 0 <= i < |dict| ==> dict[i].key in ks
  {
    set i | 0 <= i < |dict| :: dict[i].key
  }

  /** The canonical field names of the header dictionary. */
  function Keys(): set<string> {
    KeysOf(HeaderMap)
  }

  /** No canonical field is listed twice, so a key determines its position. */
  lemma KeysDistinct()
    ensures forall i, j :: 0 <= i < |HeaderMap| && 0 <= j < |HeaderMap| && HeaderMap[i].key == HeaderMap[j].key ==> i == j
  {
  }

  /** Metr.(bis) is entry 9 and no other. */
  lemma MetrToPosition(i: nat)
    requires i < |HeaderMap| && HeaderMap[i].key == MetrTo
    ensures i == 9
  {
  }

  /** The text match_header compares: text.strip().lower(). */
  function NormalizeText(s: string): string {
    ToLower(PyStrip(s))
  }

  /** The possibilities handed to get_close_matches for one entry: the key and its synonyms, lower-cased. */
  function Candidates(e: HeaderEntry): (cs: seq<string>)
    ensures |cs| == |e.synonyms| + 1
    ensures cs[0] == ToLower(e.key)
    ensures forall i :: 0 <= i < |e.synonyms| ==> cs[i + 1] == ToLower(e.synonyms[i])
  {
    [ToLower(e.key)] + seq(|e.synonyms|, i requires 0 <= i < |e.synonyms| => ToLower(e.synonyms[i]))
  }

  /** get_close_matches(t, candidates, n=1, cutoff=0.7) returns a non-empty list. */
  predicate AnyClose(close: Closeness, t: string, candidates: seq<string>) {
    exists c :: c in candidates && close(t, c)
  }

  /** Entry i of the dictionary accepts the normalised text t. */
  predicate EntryAccepts(close: Closeness, dict: seq<HeaderEntry>, t: string, i: nat)
    requires i < |dict|
  {
    AnyClose(close, t, Candidates(dict[i]))
  }

  /** The first entry at or after position i that accepts t (the loop's early return). */
  function FirstAcceptingFrom(close: Closeness, dict: seq<HeaderEntry>, t: string, i: nat): (r: Option<nat>)
    requires i <= |dict|
    ensures r.Some? ==> i <= r.value < |dict| && EntryAccepts(close, dict, t, r.value)
    ensures r.Some? ==> forall j :: i <= j < r.value ==> !EntryAccepts(close, dict, t, j)
    ensures r.None? ==> forall j :: i <= j < |dict| ==> !EntryAccepts(close, dict, t, j)
    decreases |dict| - i
  {
    if i == |dict| then None
    else if EntryAccepts(close, dict, t, i) then Some(i)
    else FirstAcceptingFrom(close, dict, t, i + 1)
  }

  /**
   * The loop of match_header over a dictionary: None for a cell that is not a
   * string; otherwise the key of the first entry, in dictionary order, one of
   * whose lower-cased spellings is close to the stripped, lower-cased text;
   * None when no entry is.
   */
  function MatchIn(close: Closeness, dict: seq<HeaderEntry>, cell: Option<string>): (r: Option<string>)
    ensures cell.None? ==> r.None?
    ensures r.Some? ==> r.value in KeysOf(dict)
    ensures r.Some? <==> cell.Some? && exists i :: 0 <= i < |dict| && EntryAccepts(close, dict, NormalizeText(cell.value), i)
    ensures r.Some? ==> exists i :: (0 <= i < |dict| && dict[i].key == r.value
      && EntryAccepts(close, dict, NormalizeText(cell.value), i)
      && forall j :: 0 <= j < i ==> !EntryAccepts(close, dict, NormalizeText(cell.value), j))
  {
    match cell
    case None => None
    case Some(text) =>
      match FirstAcceptingFrom(close, dict, NormalizeText(text), 0)
      case None => None
      case Some(i) => Some(dict[i].key)
  }

  /** match_header(cell), which consults HEADER_MAP. */
  function MatchHeader(close: Closeness, cell: Option<string>): Option<string> {
    MatchIn(close, HeaderMap, cell)
  }

  /**
   * A text that is literally one of entry k's spellings (after strip and
   * lower) always resolves, and to entry k or to an earlier entry: an exact
   * spelling can lose only to an entry that comes first.
   */
  lemma ExactSpellingResolvesAtOrBefore(close: Closeness, text: string, k: nat)
    requires Reflexive(close)
    requires k < |HeaderMap|
    requires NormalizeText(text) in Candidates(HeaderMap[k])
    ensures MatchHeader(close, Some(text)).Some?
    ensures exists i :: 0 <= i <= k && HeaderMap[i].key == MatchHeader(close, Some(text)).value
  {
    var t := NormalizeText(text);
    SpellingAccepted(close, HeaderMap, t, k);
    FirstAcceptingAtOrBefore(close, HeaderMap, t, k);
    var i := FirstAcceptingFrom(close, HeaderMap, t, 0).value;
    assert MatchHeader(close, Some(text)) == Some(HeaderMap[i].key);
  }

  /** An entry accepts each of its own spellings. */
  lemma SpellingAccepted(close: Closeness, dict: seq<HeaderEntry>, t: string, k: nat)
    requires Reflexive(close)
    requires k < |dict| && t in Candidates(dict[k])
    ensures EntryAccepts(close, dict, t, k)
  {
    assert close(t, t);
  }

  /** Once entry k accepts t, the search from the start stops at k or before. */
  lemma FirstAcceptingAtOrBefore(close: Closeness, dict: seq<HeaderEntry>, t: string, k: nat)
    requires k < |dict| && EntryAccepts(close, dict, t, k)
    ensures FirstAcceptingFrom(close, dict, t, 0).Some? && FirstAcceptingFrom(close, dict, t, 0).value <= k
  {
  }

  /**
   * Metr.(bis) shares all its synonyms with Metr.(von), which comes first, so
   * a text can resolve to Metr.(bis) only by being close to the key
   * "metr.(bis)" itself; a plain "Metr." column always resolves to
   * Metr.(von) or to an earlier field.
   */
  lemma MetrToNeedsItsOwnName(close: Closeness, text: string)
    requires MatchHeader(close, Some(text)) == Some(MetrTo)
    ensures close(NormalizeText(text), ToLower(MetrTo))
  {
    var t := NormalizeText(text);
    var i := FirstAcceptingFrom(close, HeaderMap, t, 0).value;
    assert HeaderMap[i].key == MetrTo;
    MetrToPosition(i);
    MetrSynonymsShared();
    SharedSynonymsNeedKey(close, t, 6, 9);
  }

  /** Metr.(von) (entry 6) and Metr.(bis) (entry 9) list the same synonyms. */
  lemma MetrSynonymsShared()
    ensures HeaderMap[6].key == MetrFrom && HeaderMap[9].key == MetrTo
    ensures HeaderMap[6].synonyms == HeaderMap[9].synonyms
  {
  }

  /** Of two entries with the same synonyms, only its key can make entry j accept a text entry i rejects. */
  lemma SharedSynonymsNeedKey(close: Closeness, t: string, i: nat, j: nat)
    requires i < |HeaderMap| && j < |HeaderMap|
    requires HeaderMap[i].synonyms == HeaderMap[j].synonyms
    requires !EntryAccepts(close, HeaderMap, t, i) && EntryAccepts(close, HeaderMap, t, j)
    ensures close(t, ToLower(HeaderMap[j].key))
  {
    var c :| c in Candidates(HeaderMap[j]) && close(t, c);
  }
}
