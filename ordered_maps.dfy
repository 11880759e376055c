/**
 * Dictionaries whose key order can be observed: a Python dict, and a
 * JavaScript object whose keys are not array indices. Both keep their keys
 * in order of first insertion; assigning to a present key keeps its place.
 */
module OrderedMaps {
  import opened Sequences

  /** The keys in insertion order, and what each key holds. */
  datatype OMap<V> = OMap(keys: seq<string>, entries: map<string, V>)

  predicate Distinct(s: seq<string>) {
    forall i, j :: 0 <= i < j < |s| ==> s[i] != s[j]
  }

  /** Every key listed once, and exactly the keys that hold something. */
  predicate Valid<V>(m: OMap<V>) {
    Distinct(m.keys)
    && (forall k :: k in m.keys ==> k in m.entries)
    && (forall k :: k in m.entries ==> k in m.keys)
  }

  function Empty<V>(): (m: OMap<V>)
    ensures Valid(m) && m.keys == [] && m.entries == map[]
  {
    OMap([], map[])
  }

  /** Assignment m[k] = v. */
  function Put<V>(m: OMap<V>, k: string, v: V): (r: OMap<V>)
    requires Valid(m)
    ensures Valid(r)
    ensures r.entries == m.entries[k := v]
    ensures r.keys == if k in m.entries then m.keys else m.keys + [k]
  {
    if k in m.entries then OMap(m.keys, m.entries[k := v])
    else OMap(m.keys + [k], m.entries[k := v])
  }

  /**
   * The order in which the keys of s arrive in a dictionary that already holds
   * the keys seen: seen, then each string of s at its first appearance.
   */
  function DedupFrom(seen: seq<string>, s: seq<string>): (r: seq<string>)
    ensures |seen| <= |r| && r[..|seen|] == seen
    ensures forall x :: x in r <==> x in seen || x in s
    ensures Distinct(seen) ==> Distinct(r)
    decreases |s|
  {
    if |s| == 0 then seen
    else if s[0] in seen then DedupFrom(seen, s[1..])
    else
      var r := DedupFrom(seen + [s[0]], s[1..]);
      assert (seen + [s[0]])[..|seen|] == seen;
      assert r[..|seen|] == r[..|seen| + 1][..|seen|];
      assert forall x :: x in s ==> x == s[0] || x in s[1..];
      r
  }

  /** One step of DedupFrom, for a list given by its first element and the rest. */
  lemma DedupFromCons(seen: seq<string>, x: string, s: seq<string>)
    ensures DedupFrom(seen, [x] + s) == if x in seen then DedupFrom(seen, s) else DedupFrom(seen + [x], s)
  {
    assert ([x] + s)[0] == x && ([x] + s)[1..] == s;
  }

  /** The keys of s in order of first appearance. */
  function Dedup(s: seq<string>): seq<string> {
    DedupFrom([], s)
  }

  /** Feeding a dictionary a, then b, orders its keys as feeding it a + b. */
  lemma {:induction false} DedupFromAppend(seen: seq<string>, a: seq<string>, b: seq<string>)
    ensures DedupFrom(DedupFrom(seen, a), b) == DedupFrom(seen, a + b)
    decreases |a|
  {
    if |a| > 0 {
      ConcatTail(a, b);
      if a[0] in seen {
        DedupFromAppend(seen, a[1..], b);
      } else {
        DedupFromAppend(seen + [a[0]], a[1..], b);
      }
    } else {
      assert a + b == b;
    }
  }
}
