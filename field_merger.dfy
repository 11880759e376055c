/**
 * map_columns_to_headers: the columns of the extracted frame merged into
 * the canonical fields of HEADER_MAP, with the two measurement columns
 * assigned by position.
 */
module FieldMerger {
  import opened Wrappers
  import opened Sequences
  import opened HeaderResolver
  import opened ColumnLabels
  import opened Frames
  import opened OrderedMaps

  /** The merged result: canonical field name to its values, in insertion order. */
  type Fields = OMap<seq<string>>

  /** One column read into one field. */
  datatype Feed = Feed(target: string, column: nat)

  /** match_header for every column label, in column order. */
  function Resolutions(close: Closeness, labels: seq<string>): (hs: seq<Option<string>>)
    ensures |hs| == |labels|
    ensures forall j :: 0 <= j < |labels| ==> hs[j] == MatchHeader(close, Some(labels[j]))
  {
    seq(|labels|, j requires 0 <= j < |labels| => MatchHeader(close, Some(labels[j])))
  }

  /** Every field a label resolves to is a key of HEADER_MAP. */
  lemma FieldIsKey(close: Closeness, labels: seq<string>, k: string)
    requires IsMetrField(Some(k)) || exists j :: 0 <= j < |labels| && Resolutions(close, labels)[j] == Some(k)
    ensures k in Keys()
  {
    if IsMetrField(Some(k)) {
      MetrSynonymsShared();
    } else {
      var j :| 0 <= j < |labels| && Resolutions(close, labels)[j] == Some(k);
      assert MatchHeader(close, Some(labels[j])) == Some(k);
    }
  }

  /** Whether a resolved field is one of the two measurement fields. */
  predicate IsMetrField(h: Option<string>) {
    h == Some(MetrFrom) || h == Some(MetrTo)
  }

  /** The first loop's reads: every column from j on that resolves to a field other than Metr.(von)/Metr.(bis). */
  function PlainFeeds(hs: seq<Option<string>>, j: nat): (fs: seq<Feed>)
    ensures forall i :: 0 <= i < |fs| ==>
      j <= fs[i].column < |hs| && hs[fs[i].column] == Some(fs[i].target) && !IsMetrField(Some(fs[i].target))
    decreases |hs| - j
  {
    if j >= |hs| then []
    else (if hs[j].Some? && !IsMetrField(hs[j]) then [Feed(hs[j].value, j)] else []) + PlainFeeds(hs, j + 1)
  }

  /** metr_spalten: the columns from j on that resolve to a measurement field, in order. */
  function MetrColumns(hs: seq<Option<string>>, j: nat): (ms: seq<nat>)
    ensures forall i :: 0 <= i < |ms| ==> j <= ms[i] < |hs| && IsMetrField(hs[ms[i]])
    decreases |hs| - j
  {
    if j >= |hs| then []
    else (if IsMetrField(hs[j]) then [j] else []) + MetrColumns(hs, j + 1)
  }

  /** The first loop reads every column that resolves to a field other than the measurement fields. */
  lemma {:induction false} PlainFeedsCover(hs: seq<Option<string>>, j: nat, k: nat)
    requires j <= k < |hs| && hs[k].Some? && !IsMetrField(hs[k])
    ensures Feed(hs[k].value, k) in PlainFeeds(hs, j)
    decreases k - j
  {
    if j < k {
      PlainFeedsCover(hs, j + 1, k);
    }
  }

  /** metr_spalten lists every column that resolves to a measurement field. */
  lemma {:induction false} MetrColumnsCover(hs: seq<Option<string>>, j: nat, k: nat)
    requires j <= k < |hs| && IsMetrField(hs[k])
    ensures k in MetrColumns(hs, j)
    decreases k - j
  {
    if j < k {
      MetrColumnsCover(hs, j + 1, k);
    }
  }

  /** The second loop's reads: the first measurement column into Metr.(von), every later one into Metr.(bis). */
  function MetrFeeds(ms: seq<nat>): (fs: seq<Feed>)
    ensures |fs| == |ms|
    ensures forall i :: 0 <= i < |ms| ==> fs[i] == Feed(if i == 0 then MetrFrom else MetrTo, ms[i])
  {
    seq(|ms|, i requires 0 <= i < |ms| => Feed(if i == 0 then MetrFrom else MetrTo, ms[i]))
  }

  /** All reads in the order the function performs them, for the columns' resolutions hs. */
  function Feeds(hs: seq<Option<string>>): (fs: seq<Feed>)
    ensures forall i :: 0 <= i < |fs| ==> fs[i].column < |hs|
  {
    var p, ms := PlainFeeds(hs, 0), MetrColumns(hs, 0);
    assert forall i :: |p| <= i < |p| + |ms| ==> (p + MetrFeeds(ms))[i] == MetrFeeds(ms)[i - |p|];
    p + MetrFeeds(ms)
  }

  function Targets(fs: seq<Feed>): (ts: seq<string>)
    ensures |ts| == |fs| && forall i :: 0 <= i < |fs| ==> ts[i] == fs[i].target
  {
    seq(|fs|, i requires 0 <= i < |fs| => fs[i].target)
  }

  lemma TargetsTail(fs: seq<Feed>)
    requires |fs| > 0
    ensures Targets(fs)[0] == fs[0].target && Targets(fs)[1..] == Targets(fs[1..])
  {
  }

  predicate FeedsIn(f: Frame, fs: seq<Feed>) {
    forall i :: 0 <= i < |fs| ==> fs[i].column < |f.columns|
  }

  /** mapped.setdefault(k, []).extend(vs): the key is created even when vs is empty. */
  function Extend(m: Fields, k: string, vs: seq<string>): (r: Fields)
    requires Valid(m)
    ensures Valid(r)
  {
    Put(m, k, (if k in m.entries then m.entries[k] else []) + vs)
  }

  /** The reads fs performed on acc, stopping at the first column pandas cannot read as a list. */
  function MergeFeeds(f: Frame, fs: seq<Feed>, acc: Fields): (r: Result<Fields, FrameError>)
    requires WellShaped(f) && FeedsIn(f, fs) && Valid(acc)
    ensures r.Ok? ==> Valid(r.value)
    decreases |fs|
  {
    if |fs| == 0 then Ok(acc)
    else
      match ColumnValues(f, fs[0].column)
      case Err(e) => Err(e)
      case Ok(vs) => MergeFeeds(f, fs[1..], Extend(acc, fs[0].target, vs))
  }

  /** The merge of f's columns, given what each column label resolves to. */
  function MergeColumns(f: Frame, hs: seq<Option<string>>): Result<Fields, FrameError>
    requires WellShaped(f) && |hs| == |f.columns|
  {
    FeedsWithinFrame(hs);
    MergeFeeds(f, Feeds(hs), Empty())
  }

  /** What map_columns_to_headers(df) returns, or the error it raises. */
  function MapColumns(close: Closeness, f: Frame): Result<Fields, FrameError>
    requires WellShaped(f)
  {
    MergeColumns(f, Resolutions(close, f.columns))
  }

  /**
   * Every read names a column that resolves to a field, and reads into that
   * field unless the column is a measurement column.
   */
  lemma FeedsWithinFrame(hs: seq<Option<string>>)
    ensures forall i :: 0 <= i < |Feeds(hs)| ==>
      && Feeds(hs)[i].column < |hs|
      && hs[Feeds(hs)[i].column].Some?
      && (hs[Feeds(hs)[i].column] == Some(Feeds(hs)[i].target) || IsMetrField(Some(Feeds(hs)[i].target)))
  {
    var p, ms := PlainFeeds(hs, 0), MetrColumns(hs, 0);
    var fs := Feeds(hs);
    forall i | 0 <= i < |fs|
      ensures fs[i].column < |hs| && hs[fs[i].column].Some?
      ensures hs[fs[i].column] == Some(fs[i].target) || IsMetrField(Some(fs[i].target))
    {
      if i < |p| {
        assert fs[i] == p[i];
      } else {
        assert fs[i] == MetrFeeds(ms)[i - |p|];
      }
    }
  }

  /** Every column that resolves to a field is read. */
  lemma FeedsCover(hs: seq<Option<string>>, j: nat)
    requires j < |hs| && hs[j].Some?
    ensures exists i :: 0 <= i < |Feeds(hs)| && Feeds(hs)[i].column == j
  {
    var p, ms := PlainFeeds(hs, 0), MetrColumns(hs, 0);
    var fs := Feeds(hs);
    if IsMetrField(hs[j]) {
      MetrColumnsCover(hs, 0, j);
      var m :| 0 <= m < |ms| && ms[m] == j;
      assert fs[|p| + m] == MetrFeeds(ms)[m];
    } else {
      PlainFeedsCover(hs, 0, j);
      var i :| 0 <= i < |p| && p[i] == Feed(hs[j].value, j);
      assert fs[i] == p[i];
    }
  }

  // ---------------------------------------------------------------- what the reads collect

  /** The values the reads fs put under key k, in order. */
  function Collected(f: Frame, fs: seq<Feed>, k: string): seq<string>
    requires WellShaped(f) && FeedsIn(f, fs)
    decreases |fs|
  {
    if |fs| == 0 then []
    else (if fs[0].target == k then PresentValues(ColumnCells(f, fs[0].column)) else []) + Collected(f, fs[1..], k)
  }

  /** Every read column's label names a single column. */
  predicate ReadableFeeds(f: Frame, fs: seq<Feed>)
    requires FeedsIn(f, fs)
  {
    forall i :: 0 <= i < |fs| ==> Occurrences(f.columns, f.columns[fs[i].column]) == 1
  }

  /** The merge succeeds exactly when every read column has a unique label. */
  lemma {:induction false} MergeFeedsOk(f: Frame, fs: seq<Feed>, acc: Fields)
    requires WellShaped(f) && FeedsIn(f, fs) && Valid(acc)
    ensures MergeFeeds(f, fs, acc).Ok? <==> ReadableFeeds(f, fs)
    decreases |fs|
  {
    if |fs| > 0 {
      var rest := fs[1..];
      assert forall i :: 0 <= i < |rest| ==> rest[i] == fs[i + 1];
      match ColumnValues(f, fs[0].column)
      case Err(_) =>
      case Ok(vs) =>
        MergeFeedsOk(f, rest, Extend(acc, fs[0].target, vs));
        if ReadableFeeds(f, rest) {
          forall i | 0 <= i < |fs| ensures Occurrences(f.columns, f.columns[fs[i].column]) == 1 {
            if i > 0 { assert fs[i] == rest[i - 1]; }
          }
        }
    }
  }

  /** After a successful merge new keys follow the old ones in order of first appearance. */
  lemma {:induction false} MergeFeedsKeys(f: Frame, fs: seq<Feed>, acc: Fields)
    requires WellShaped(f) && FeedsIn(f, fs) && Valid(acc)
    requires MergeFeeds(f, fs, acc).Ok?
    ensures Valid(MergeFeeds(f, fs, acc).value)
    ensures MergeFeeds(f, fs, acc).value.keys == DedupFrom(acc.keys, Targets(fs))
    decreases |fs|
  {
    if |fs| > 0 {
      MergeFeedsStep(f, fs, acc);
      TargetsTail(fs);
      var acc' := Extend(acc, fs[0].target, ColumnValues(f, fs[0].column).value);
      MergeFeedsKeys(f, fs[1..], acc');
    }
  }

  /** One successful read, unfolded. */
  lemma MergeFeedsStep(f: Frame, fs: seq<Feed>, acc: Fields)
    requires WellShaped(f) && FeedsIn(f, fs) && Valid(acc)
    requires |fs| > 0 && MergeFeeds(f, fs, acc).Ok?
    ensures FeedsIn(f, fs[1..]) && ColumnValues(f, fs[0].column).Ok?
    ensures MergeFeeds(f, fs, acc) == MergeFeeds(f, fs[1..], Extend(acc, fs[0].target, ColumnValues(f, fs[0].column).value))
  {
    assert forall i :: 0 <= i < |fs[1..]| ==> fs[1..][i] == fs[i + 1];
  }

  /** What Extend leaves under each key. */
  lemma ExtendEntry(m: Fields, t: string, vs: seq<string>, k: string)
    requires Valid(m)
    ensures k in Extend(m, t, vs).entries <==> k in m.entries || k == t
    ensures k in Extend(m, t, vs).entries ==>
      Extend(m, t, vs).entries[k] == (if k in m.entries then m.entries[k] else []) + (if t == k then vs else [])
  {
  }

  /** Collected, one read unfolded. */
  lemma CollectedStep(f: Frame, fs: seq<Feed>, k: string)
    requires WellShaped(f) && FeedsIn(f, fs) && |fs| > 0
    ensures FeedsIn(f, fs[1..])
    ensures Collected(f, fs, k)
      == (if fs[0].target == k then PresentValues(ColumnCells(f, fs[0].column)) else []) + Collected(f, fs[1..], k)
  {
    assert forall i :: 0 <= i < |fs[1..]| ==> fs[1..][i] == fs[i + 1];
  }

  /** After a successful merge each key holds what it held plus what the reads collect for it. */
  lemma {:induction false} MergeFeedsEntries(f: Frame, fs: seq<Feed>, acc: Fields, k: string)
    requires WellShaped(f) && FeedsIn(f, fs) && Valid(acc)
    requires MergeFeeds(f, fs, acc).Ok? && k in MergeFeeds(f, fs, acc).value.entries
    ensures MergeFeeds(f, fs, acc).value.entries[k]
      == (if k in acc.entries then acc.entries[k] else []) + Collected(f, fs, k)
    decreases |fs|
  {
    if |fs| > 0 {
      MergeFeedsStep(f, fs, acc);
      var vs := ColumnValues(f, fs[0].column).value;
      var acc' := Extend(acc, fs[0].target, vs);
      MergeFeedsEntries(f, fs[1..], acc', k);
      CollectedStep(f, fs, k);
      ExtendEntry(acc, fs[0].target, vs, k);
      var before := if k in acc.entries then acc.entries[k] else [];
      var added := if fs[0].target == k then vs else [];
      var later := Collected(f, fs[1..], k);
      assert (if k in acc'.entries then acc'.entries[k] else []) == before + added;
      ConcatAssociative(before, added, later);
    }
  }

  // ---------------------------------------------------------------- the properties of the merge

  /** The merge fails exactly when a column that resolves to a field has a label shared with another column. */
  lemma MergeColumnsOk(f: Frame, hs: seq<Option<string>>)
    requires WellShaped(f) && |hs| == |f.columns|
    ensures MergeColumns(f, hs).Ok? <==>
      forall j :: 0 <= j < |f.columns| && hs[j].Some? ==> Occurrences(f.columns, f.columns[j]) == 1
  {
    FeedsWithinFrame(hs);
    var fs := Feeds(hs);
    MergeFeedsOk(f, fs, Empty());
    if ReadableFeeds(f, fs) {
      forall j | 0 <= j < |f.columns| && hs[j].Some? ensures Occurrences(f.columns, f.columns[j]) == 1 {
        FeedsCover(hs, j);
      }
    }
  }

  /**
   * After a successful merge the fields arrive in order of their first read,
   * each is a field some column resolves to or a measurement field, and each
   * holds the present values of the columns read into it, in reading order.
   */
  lemma MergeColumnsContents(f: Frame, hs: seq<Option<string>>)
    requires WellShaped(f) && |hs| == |f.columns| && MergeColumns(f, hs).Ok?
    ensures FeedsIn(f, Feeds(hs))
    ensures var r := MergeColumns(f, hs).value;
      && Valid(r)
      && r.keys == Dedup(Targets(Feeds(hs)))
      && (forall k :: k in r.entries ==> IsMetrField(Some(k)) || exists j :: 0 <= j < |hs| && hs[j] == Some(k))
      && forall k :: k in r.entries ==> r.entries[k] == Collected(f, Feeds(hs), k)
  {
    FeedsWithinFrame(hs);
    var fs := Feeds(hs);
    var r := MergeColumns(f, hs).value;
    MergeFeedsKeys(f, fs, Empty());
    forall k | k in r.entries ensures r.entries[k] == Collected(f, fs, k) {
      MergeFeedsEntries(f, fs, Empty(), k);
    }
    forall k | k in r.entries ensures IsMetrField(Some(k)) || exists j :: 0 <= j < |hs| && hs[j] == Some(k) {
      assert k in Targets(fs);
      var i :| 0 <= i < |fs| && Targets(fs)[i] == k;
      assert fs[i].target == k;
    }
  }

  /**
   * map_columns_to_headers fails exactly when a column that resolves to a
   * field has a label shared with another column. Otherwise the fields are
   * keys of HEADER_MAP in order of their first read, and each holds the
   * present values of the columns read into it, in reading order.
   */
  lemma MapColumnsContents(close: Closeness, f: Frame)
    requires WellShaped(f)
    ensures var hs := Resolutions(close, f.columns);
      MapColumns(close, f).Ok? <==>
        forall j :: 0 <= j < |f.columns| && hs[j].Some? ==> Occurrences(f.columns, f.columns[j]) == 1
    ensures MapColumns(close, f).Ok? ==>
      var r := MapColumns(close, f).value; var fs := Feeds(Resolutions(close, f.columns));
      && Valid(r)
      && r.keys == Dedup(Targets(fs))
      && (forall k :: k in r.entries ==> k in Keys())
      && forall k :: k in r.entries ==> r.entries[k] == Collected(f, fs, k)
  {
    var hs := Resolutions(close, f.columns);
    MergeColumnsOk(f, hs);
    if MapColumns(close, f).Ok? {
      MergeColumnsContents(f, hs);
      var r := MapColumns(close, f).value;
      forall k | k in r.entries ensures k in Keys() {
        FieldIsKey(close, f.columns, k);
      }
    }
  }

  /** Collected over a concatenation of reads. */
  lemma {:induction false} CollectedAppend(f: Frame, a: seq<Feed>, b: seq<Feed>, k: string)
    requires WellShaped(f) && FeedsIn(f, a) && FeedsIn(f, b)
    ensures FeedsIn(f, a + b)
    ensures Collected(f, a + b, k) == Collected(f, a, k) + Collected(f, b, k)
    decreases |a|
  {
    FeedsAppend(f, a, b);
    if |a| == 0 {
      assert a + b == b;
    } else {
      CollectedStep(f, a, k);
      CollectedStep(f, a + b, k);
      ConcatTail(a, b);
      CollectedAppend(f, a[1..], b, k);
      ConcatAssociative(
        if a[0].target == k then PresentValues(ColumnCells(f, a[0].column)) else [],
        Collected(f, a[1..], k), Collected(f, b, k));
    }
  }

  lemma FeedsAppend(f: Frame, a: seq<Feed>, b: seq<Feed>)
    requires FeedsIn(f, a) && FeedsIn(f, b)
    ensures FeedsIn(f, a + b)
  {
    assert forall i :: 0 <= i < |a + b| ==> (a + b)[i] == if i < |a| then a[i] else b[i - |a|];
  }

  /** Reads into other keys collect nothing for k. */
  lemma {:induction false} CollectedNone(f: Frame, fs: seq<Feed>, k: string)
    requires WellShaped(f) && FeedsIn(f, fs)
    requires forall i :: 0 <= i < |fs| ==> fs[i].target != k
    ensures Collected(f, fs, k) == []
    decreases |fs|
  {
    if |fs| > 0 {
      var rest := fs[1..];
      assert FeedsIn(f, rest) && forall i :: 0 <= i < |rest| ==> rest[i] == fs[i + 1];
      CollectedNone(f, rest, k);
    }
  }

  /** The values of the measurement columns listed in ms, one after the other. */
  function ValuesOf(f: Frame, ms: seq<nat>): seq<string>
    requires WellShaped(f) && forall i :: 0 <= i < |ms| ==> ms[i] < |f.columns|
    decreases |ms|
  {
    if |ms| == 0 then [] else PresentValues(ColumnCells(f, ms[0])) + ValuesOf(f, ms[1..])
  }

  /** Reads of later measurement columns all go to Metr.(bis). */
  lemma {:induction false} CollectedMetrTo(f: Frame, ms: seq<nat>)
    requires WellShaped(f) && forall i :: 0 <= i < |ms| ==> ms[i] < |f.columns|
    ensures FeedsIn(f, seq(|ms|, i requires 0 <= i < |ms| => Feed(MetrTo, ms[i])))
    ensures Collected(f, seq(|ms|, i requires 0 <= i < |ms| => Feed(MetrTo, ms[i])), MetrTo) == ValuesOf(f, ms)
    decreases |ms|
  {
    var fs := seq(|ms|, i requires 0 <= i < |ms| => Feed(MetrTo, ms[i]));
    if |ms| > 0 {
      var rest := ms[1..];
      CollectedMetrTo(f, rest);
      assert fs[1..] == seq(|rest|, i requires 0 <= i < |rest| => Feed(MetrTo, rest[i]));
    }
  }

  /** What the second loop's reads collect for the two measurement fields. */
  lemma MetrFeedsCollect(f: Frame, ms: seq<nat>)
    requires WellShaped(f) && forall i :: 0 <= i < |ms| ==> ms[i] < |f.columns|
    ensures FeedsIn(f, MetrFeeds(ms))
    ensures Collected(f, MetrFeeds(ms), MetrFrom) == if |ms| == 0 then [] else PresentValues(ColumnCells(f, ms[0]))
    ensures Collected(f, MetrFeeds(ms), MetrTo) == if |ms| == 0 then [] else ValuesOf(f, ms[1..])
  {
    var mf := MetrFeeds(ms);
    if |ms| > 0 {
      CollectedStep(f, mf, MetrFrom);
      CollectedStep(f, mf, MetrTo);
      var tail := mf[1..];
      assert tail == seq(|ms[1..]|, i requires 0 <= i < |ms[1..]| => Feed(MetrTo, ms[1..][i]));
      CollectedMetrTo(f, ms[1..]);
      CollectedNone(f, tail, MetrFrom);
    }
  }

  /** The first loop's reads collect nothing for the measurement fields. */
  lemma PlainFeedsSkipMetr(f: Frame, hs: seq<Option<string>>, k: string)
    requires WellShaped(f) && |hs| == |f.columns| && IsMetrField(Some(k))
    ensures FeedsIn(f, MetrFeeds(MetrColumns(hs, 0)))
    ensures Collected(f, Feeds(hs), k) == Collected(f, MetrFeeds(MetrColumns(hs, 0)), k)
  {
    var p, mf := PlainFeeds(hs, 0), MetrFeeds(MetrColumns(hs, 0));
    assert FeedsIn(f, p) && FeedsIn(f, mf);
    CollectedNone(f, p, k);
    CollectedAppend(f, p, mf, k);
  }

  /** Metr.(von) is read into iff there is a measurement column, Metr.(bis) iff there are two. */
  lemma MetrTargets(hs: seq<Option<string>>)
    ensures MetrFrom in Targets(Feeds(hs)) <==> |MetrColumns(hs, 0)| >= 1
    ensures MetrTo in Targets(Feeds(hs)) <==> |MetrColumns(hs, 0)| >= 2
  {
    var p, ms := PlainFeeds(hs, 0), MetrColumns(hs, 0);
    var ts := Targets(Feeds(hs));
    TargetsSplit(hs);
    assert MetrFrom != MetrTo;
    if |ms| >= 1 { assert ts[|p|] == MetrFrom; }
    if |ms| >= 2 { assert ts[|p| + 1] == MetrTo; }
    if |ms| == 0 {
      assert forall i :: 0 <= i < |ts| ==> ts[i] != MetrFrom && ts[i] != MetrTo;
    }
    if |ms| == 1 {
      assert forall i :: 0 <= i < |ts| ==> ts[i] != MetrTo;
    }
  }

  /** The targets of the reads: plain fields first, then Metr.(von) and Metr.(bis) by position. */
  lemma TargetsSplit(hs: seq<Option<string>>)
    ensures |Targets(Feeds(hs))| == |PlainFeeds(hs, 0)| + |MetrColumns(hs, 0)|
    ensures forall i :: 0 <= i < |PlainFeeds(hs, 0)| ==> !IsMetrField(Some(Targets(Feeds(hs))[i]))
    ensures forall i :: |PlainFeeds(hs, 0)| <= i < |Targets(Feeds(hs))| ==>
      Targets(Feeds(hs))[i] == if i == |PlainFeeds(hs, 0)| then MetrFrom else MetrTo
  {
    var p, ms := PlainFeeds(hs, 0), MetrColumns(hs, 0);
    var fs := Feeds(hs);
    forall i | 0 <= i < |p| ensures !IsMetrField(Some(Targets(fs)[i])) {
      assert fs[i] == p[i];
    }
    forall i | |p| <= i < |fs| ensures Targets(fs)[i] == if i == |p| then MetrFrom else MetrTo {
      assert fs[i] == MetrFeeds(ms)[i - |p|];
    }
  }

  /**
   * The positional rule: whatever a measurement column resolves to, the first
   * one fills Metr.(von) and the later ones fill Metr.(bis), in column order;
   * without measurement columns neither field appears, and Metr.(bis) appears
   * only when there are at least two.
   */
  lemma MetrPositional(f: Frame, hs: seq<Option<string>>)
    requires WellShaped(f) && |hs| == |f.columns| && MergeColumns(f, hs).Ok?
    ensures var r := MergeColumns(f, hs).value; var ms := MetrColumns(hs, 0);
      && (forall i :: 0 <= i < |ms| ==> ms[i] < |f.columns|)
      && (MetrFrom in r.entries <==> |ms| >= 1)
      && (MetrTo in r.entries <==> |ms| >= 2)
      && (|ms| >= 1 ==> r.entries[MetrFrom] == PresentValues(ColumnCells(f, ms[0])))
      && (|ms| >= 2 ==> r.entries[MetrTo] == ValuesOf(f, ms[1..]))
  {
    var r := MergeColumns(f, hs).value;
    var ms := MetrColumns(hs, 0);
    MergeColumnsContents(f, hs);
    assert forall k :: k in r.entries <==> k in Targets(Feeds(hs));
    MetrTargets(hs);
    MetrFeedsCollect(f, ms);
    PlainFeedsSkipMetr(f, hs, MetrFrom);
    PlainFeedsSkipMetr(f, hs, MetrTo);
  }

  // ---------------------------------------------------------------- the function itself

  /** One read in front of others, unfolded. */
  lemma MergeFeedsCons(f: Frame, feed: Feed, rest: seq<Feed>, acc: Fields)
    requires WellShaped(f) && feed.column < |f.columns| && FeedsIn(f, rest) && Valid(acc)
    ensures FeedsIn(f, [feed] + rest)
    ensures ColumnValues(f, feed.column).Err? ==>
      MergeFeeds(f, [feed] + rest, acc) == Err(ColumnValues(f, feed.column).error)
    ensures ColumnValues(f, feed.column).Ok? ==>
      MergeFeeds(f, [feed] + rest, acc) == MergeFeeds(f, rest, Extend(acc, feed.target, ColumnValues(f, feed.column).value))
  {
    var fs := [feed] + rest;
    assert fs[0] == feed && fs[1..] == rest;
  }

  /** The reads a + b: those of a, then, unless they failed, those of b. */
  lemma {:induction false} MergeFeedsAppend(f: Frame, a: seq<Feed>, b: seq<Feed>, acc: Fields)
    requires WellShaped(f) && FeedsIn(f, a) && FeedsIn(f, b) && Valid(acc)
    ensures FeedsIn(f, a + b)
    ensures MergeFeeds(f, a, acc).Err? ==> MergeFeeds(f, a + b, acc) == MergeFeeds(f, a, acc)
    ensures MergeFeeds(f, a, acc).Ok? ==> MergeFeeds(f, a + b, acc) == MergeFeeds(f, b, MergeFeeds(f, a, acc).value)
    decreases |a|
  {
    assert forall i :: 0 <= i < |a + b| ==> (a + b)[i] == if i < |a| then a[i] else b[i - |a|];
    if |a| == 0 {
      assert a + b == b;
    } else {
      var rest := a[1..];
      assert FeedsIn(f, rest) by {
        forall i | 0 <= i < |rest| ensures rest[i].column < |f.columns| { assert rest[i] == a[i + 1]; }
      }
      ConcatTail(a, b);
      match ColumnValues(f, a[0].column)
      case Err(_) =>
      case Ok(vs) => MergeFeedsAppend(f, rest, b, Extend(acc, a[0].target, vs));
    }
  }

  /** The first loop at column j: what its reads from j on do, given what column j does. */
  lemma PlainFeedsStep(f: Frame, hs: seq<Option<string>>, j: nat, acc: Fields)
    requires WellShaped(f) && |hs| == |f.columns| && j < |hs| && Valid(acc)
    ensures FeedsIn(f, PlainFeeds(hs, j)) && FeedsIn(f, PlainFeeds(hs, j + 1))
    ensures !(hs[j].Some? && !IsMetrField(hs[j])) ==>
      MergeFeeds(f, PlainFeeds(hs, j), acc) == MergeFeeds(f, PlainFeeds(hs, j + 1), acc)
    ensures hs[j].Some? && !IsMetrField(hs[j]) && ColumnValues(f, j).Err? ==>
      MergeFeeds(f, PlainFeeds(hs, j), acc) == Err(ColumnValues(f, j).error)
    ensures hs[j].Some? && !IsMetrField(hs[j]) && ColumnValues(f, j).Ok? ==>
      MergeFeeds(f, PlainFeeds(hs, j), acc)
        == MergeFeeds(f, PlainFeeds(hs, j + 1), Extend(acc, hs[j].value, ColumnValues(f, j).value))
  {
    var rest := PlainFeeds(hs, j + 1);
    if hs[j].Some? && !IsMetrField(hs[j]) {
      MergeFeedsCons(f, Feed(hs[j].value, j), rest, acc);
    } else {
      assert PlainFeeds(hs, j) == rest;
    }
  }

  /** metr_spalten at column j. */
  lemma MetrColumnsStep(hs: seq<Option<string>>, j: nat, metr: seq<nat>)
    requires j < |hs|
    ensures metr + MetrColumns(hs, j) == (if IsMetrField(hs[j]) then metr + [j] else metr) + MetrColumns(hs, j + 1)
  {
    ConcatAssociative(metr, if IsMetrField(hs[j]) then [j] else [], MetrColumns(hs, j + 1));
  }

  /** The state of the first loop before column j: what is left to merge, and the measurement columns so far. */
  ghost predicate PlainLoop(f: Frame, hs: seq<Option<string>>, j: nat, acc: Fields, metr: seq<nat>)
    requires WellShaped(f) && |hs| == |f.columns|
  {
    j <= |hs| && Valid(acc)
    && metr + MetrColumns(hs, j) == MetrColumns(hs, 0)
    && (forall i :: 0 <= i < |metr| ==> metr[i] < |hs|)
    && FeedsIn(f, PlainFeeds(hs, j))
    && MergeFeeds(f, PlainFeeds(hs, j), acc) == MergeFeeds(f, PlainFeeds(hs, 0), Empty())
  }

  lemma PlainLoopInit(f: Frame, hs: seq<Option<string>>)
    requires WellShaped(f) && |hs| == |f.columns|
    ensures FeedsIn(f, PlainFeeds(hs, 0))
    ensures PlainLoop(f, hs, 0, Empty(), [])
  {
  }

  /** After the last column: the measurement columns are all collected and every other read is done. */
  lemma PlainLoopDone(f: Frame, hs: seq<Option<string>>, acc: Fields, metr: seq<nat>)
    requires WellShaped(f) && |hs| == |f.columns| && PlainLoop(f, hs, |hs|, acc, metr)
    ensures metr == MetrColumns(hs, 0)
    ensures Ok(acc) == MergeFeeds(f, PlainFeeds(hs, 0), Empty())
  {
    assert PlainFeeds(hs, |hs|) == [];
    assert metr + [] == metr;
  }

  /** Column j resolves to a measurement field: it is set aside. */
  lemma PlainLoopMetr(f: Frame, hs: seq<Option<string>>, j: nat, acc: Fields, metr: seq<nat>)
    requires WellShaped(f) && |hs| == |f.columns| && j < |hs| && PlainLoop(f, hs, j, acc, metr)
    requires IsMetrField(hs[j])
    ensures PlainLoop(f, hs, j + 1, acc, metr + [j])
  {
    PlainFeedsStep(f, hs, j, acc);
    MetrColumnsStep(hs, j, metr);
  }

  /** Column j resolves to nothing: it is passed over. */
  lemma PlainLoopSkip(f: Frame, hs: seq<Option<string>>, j: nat, acc: Fields, metr: seq<nat>)
    requires WellShaped(f) && |hs| == |f.columns| && j < |hs| && PlainLoop(f, hs, j, acc, metr)
    requires hs[j].None?
    ensures PlainLoop(f, hs, j + 1, acc, metr)
  {
    PlainFeedsStep(f, hs, j, acc);
    MetrColumnsStep(hs, j, metr);
  }

  /** Column j resolves to another field and is read. */
  lemma PlainLoopRead(f: Frame, hs: seq<Option<string>>, j: nat, acc: Fields, metr: seq<nat>)
    requires WellShaped(f) && |hs| == |f.columns| && j < |hs| && PlainLoop(f, hs, j, acc, metr)
    requires hs[j].Some? && !IsMetrField(hs[j])
    ensures ColumnValues(f, j).Err? ==> MergeFeeds(f, PlainFeeds(hs, 0), Empty()) == Err(ColumnValues(f, j).error)
    ensures ColumnValues(f, j).Ok? ==>
      PlainLoop(f, hs, j + 1, Extend(acc, hs[j].value, ColumnValues(f, j).value), metr)
  {
    PlainFeedsStep(f, hs, j, acc);
    MetrColumnsStep(hs, j, metr);
  }

  /** The second loop at position i. */
  lemma MetrFeedsStep(ms: seq<nat>, i: nat)
    requires i < |ms|
    ensures MetrFeeds(ms)[i..] == [Feed(if i == 0 then MetrFrom else MetrTo, ms[i])] + MetrFeeds(ms)[i + 1..]
  {
    var fs := MetrFeeds(ms);
    assert fs[i..] == [fs[i]] + fs[i + 1..];
  }

  /**
   * The first loop of map_columns_to_headers, given what each column label
   * resolves to: the columns resolving to a field other than the measurement
   * fields are read into mapped, and the measurement columns are set aside in
   * metr_spalten.
   */
  method ReadPlainColumns(f: Frame, hs: seq<Option<string>>) returns (mapped: Result<Fields, FrameError>, metr: seq<nat>)
    requires WellShaped(f) && |hs| == |f.columns|
    ensures mapped.Ok? ==> metr == MetrColumns(hs, 0)
    ensures forall i :: 0 <= i < |metr| ==> metr[i] < |f.columns|
    ensures FeedsIn(f, PlainFeeds(hs, 0))
    ensures mapped == MergeFeeds(f, PlainFeeds(hs, 0), Empty())
  {
    PlainLoopInit(f, hs);
    var acc: Fields := Empty();
    metr := [];
    var j := 0;
    while j < |hs|
      invariant PlainLoop(f, hs, j, acc, metr)
    {
      var step, metr' := PlainColumn(f, hs, j, acc, metr);
      if step.Err? {
        return step, metr;
      }
      acc, metr := step.value, metr';
      j := j + 1;
    }
    PlainLoopDone(f, hs, acc, metr);
    return Ok(acc), metr;
  }

  /** One pass of the first loop: column j is set aside, read into its field, or passed over. */
  method PlainColumn(f: Frame, hs: seq<Option<string>>, j: nat, acc: Fields, metr: seq<nat>)
    returns (step: Result<Fields, FrameError>, metr': seq<nat>)
    requires WellShaped(f) && |hs| == |f.columns| && j < |hs| && PlainLoop(f, hs, j, acc, metr)
    ensures step.Err? ==> step == MergeFeeds(f, PlainFeeds(hs, 0), Empty())
    ensures step.Ok? ==> PlainLoop(f, hs, j + 1, step.value, metr')
  {
    var header := hs[j];
    if IsMetrField(header) {
      PlainLoopMetr(f, hs, j, acc, metr);
      return Ok(acc), metr + [j];
    } else if header.Some? {
      PlainLoopRead(f, hs, j, acc, metr);
      var values := ColumnValues(f, j);
      if values.Err? {
        return Err(values.error), metr;
      }
      return Ok(Extend(acc, header.value, values.value)), metr;
    } else {
      PlainLoopSkip(f, hs, j, acc, metr);
      return Ok(acc), metr;
    }
  }

  /** The state of the second loop before measurement column i: what is left to merge. */
  ghost predicate MetrLoop(f: Frame, metr: seq<nat>, mapped: Fields, i: nat, acc: Fields)
    requires WellShaped(f)
  {
    i <= |metr| && Valid(acc) && Valid(mapped)
    && FeedsIn(f, MetrFeeds(metr)) && FeedsIn(f, MetrFeeds(metr)[i..])
    && MergeFeeds(f, MetrFeeds(metr)[i..], acc) == MergeFeeds(f, MetrFeeds(metr), mapped)
  }

  /** One read of the second loop: it fails as the whole merge does, or leaves the rest to merge. */
  lemma MetrLoopStep(f: Frame, metr: seq<nat>, mapped: Fields, i: nat, acc: Fields)
    requires WellShaped(f) && i < |metr| && MetrLoop(f, metr, mapped, i, acc)
    ensures metr[i] < |f.columns|
    ensures ColumnValues(f, metr[i]).Err? ==>
      MergeFeeds(f, MetrFeeds(metr), mapped) == Err(ColumnValues(f, metr[i]).error)
    ensures ColumnValues(f, metr[i]).Ok? ==>
      MetrLoop(f, metr, mapped, i + 1, Extend(acc, if i == 0 then MetrFrom else MetrTo, ColumnValues(f, metr[i]).value))
  {
    MetrFeedsStep(metr, i);
    var target := if i == 0 then MetrFrom else MetrTo;
    MergeFeedsCons(f, Feed(target, metr[i]), MetrFeeds(metr)[i + 1..], acc);
  }

  /** The second loop: the first measurement column into Metr.(von), every later one into Metr.(bis). */
  method ReadMetrColumns(f: Frame, metr: seq<nat>, mapped: Fields) returns (result: Result<Fields, FrameError>)
    requires WellShaped(f) && Valid(mapped) && FeedsIn(f, MetrFeeds(metr))
    ensures result == MergeFeeds(f, MetrFeeds(metr), mapped)
  {
    assert MetrFeeds(metr)[0..] == MetrFeeds(metr);
    var acc := mapped;
    var i := 0;
    while i < |metr|
      invariant MetrLoop(f, metr, mapped, i, acc)
    {
      MetrLoopStep(f, metr, mapped, i, acc);
      var target := if i == 0 then MetrFrom else MetrTo;
      var values := ColumnValues(f, metr[i]);
      if values.Err? {
        return Err(values.error);
      }
      acc := Extend(acc, target, values.value);
      i := i + 1;
    }
    assert MetrFeeds(metr)[i..] == [];
    return Ok(acc);
  }

  /**
   * map_columns_to_headers(df): the two loops, the second only when the first
   * raised nothing. match_header depends on nothing but the label, so the
   * labels are resolved up front.
   */
  method MapColumnsToHeaders(close: Closeness, f: Frame) returns (result: Result<Fields, FrameError>)
    requires WellShaped(f)
    ensures result == MapColumns(close, f)
  {
    var hs := Resolutions(close, f.columns);
    var mapped, metr := ReadPlainColumns(f, hs);
    MergeFeedsAppend(f, PlainFeeds(hs, 0), MetrFeeds(MetrColumns(hs, 0)), Empty());
    if mapped.Err? {
      return mapped;
    }
    result := ReadMetrColumns(f, metr, mapped.value);
  }
}
