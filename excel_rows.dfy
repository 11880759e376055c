/**
 * The add-in's handling of the server's results once they are in: the
 * saved-mapping merge, the union of several files' results, the preview
 * grid and the rows appended to the worksheet.
 */
module ExcelRows {
  import opened Wrappers
  import opened Sequences
  import opened OrderedMaps
  import opened ColumnAliases

  /** An object of columns: each key's array of cell texts. */
  type Columns = OMap<seq<string>>

  /** JavaScript truthiness of a string or null. */
  predicate Truthy(v: Option<string>) {
    v.Some? && v.value != ""
  }

  // ---------------------------------------------------------------- saved mappings

  /** What one entry holds after the merge: a null entry takes a truthy saved value. */
  function FillFrom(saved: map<string, Option<string>>, k: string, v: Option<string>): Option<string> {
    if v.None? && k in saved && Truthy(saved[k]) then saved[k] else v
  }

  /**
   * The header map after the saved mappings are merged in: the same keys;
   * an entry changes only when it was null and a truthy saved value exists,
   * and then it takes that value.
   */
  function MergedWithSaved(headerMap: HeaderTable, saved: map<string, Option<string>>): (r: HeaderTable)
    ensures r.Keys == headerMap.Keys
    ensures forall k :: k in r && r[k] != headerMap[k] ==>
      headerMap[k].None? && k in saved && Truthy(saved[k]) && r[k] == saved[k]
    ensures forall k :: k in r && headerMap[k].None? && k in saved && Truthy(saved[k]) ==> r[k] == saved[k]
  {
    map k | k in headerMap :: FillFrom(saved, k, headerMap[k])
  }

  /** Merging the same saved mappings a second time changes nothing. */
  lemma MergeIdempotent(headerMap: HeaderTable, saved: map<string, Option<string>>)
    ensures MergedWithSaved(MergedWithSaved(headerMap, saved), saved) == MergedWithSaved(headerMap, saved)
  {
    var once := MergedWithSaved(headerMap, saved);
    assert forall k :: k in once ==> FillFrom(saved, k, once[k]) == once[k];
  }

  /** The for-in loop over the saved mappings, filling null entries in place. */
  method MergeSaved(headerMap: HeaderTable, saved: map<string, Option<string>>) returns (merged: HeaderTable)
    ensures merged == MergedWithSaved(headerMap, saved)
  {
    merged := headerMap;
    var pending := saved.Keys;
    while pending != {}
      invariant pending <= saved.Keys
      invariant merged.Keys == headerMap.Keys
      invariant forall k :: k in merged ==>
        merged[k] == if k in pending then headerMap[k] else FillFrom(saved, k, headerMap[k])
      decreases pending
    {
      var key :| key in pending;
      if key in merged && merged[key].None? && Truthy(saved[key]) {
        merged := merged[key := saved[key]];
      }
      pending := pending - {key};
    }
    assert forall k :: k in merged ==> merged[k] == MergedWithSaved(headerMap, saved)[k];
  }

  // ---------------------------------------------------------------- combining results

  /** combined[key] || [], for an own key or an absent one. */
  function ValueOr(m: Columns, k: string): seq<string> {
    if k in m.entries then m.entries[k] else []
  }

  /** Some key of the result is an inherited member name of Object.prototype. */
  predicate HasProtoKey(m: Columns) {
    exists i :: 0 <= i < |m.keys| && IsProtoName(m.keys[i])
  }

  /**
   * The inner for-in loop from the i-th key of data on: each key's array is
   * appended to what combined holds. For an inherited name combined[key] is
   * a truthy function or Object.prototype, which has no concat, so the
   * loop raises a TypeError.
   */
  function AddResult(acc: Columns, data: Columns, i: nat): (r: Result<Columns, JsError>)
    requires Valid(acc) && Valid(data) && i <= |data.keys|
    ensures r.Ok? ==> Valid(r.value)
    decreases |data.keys| - i
  {
    if i == |data.keys| then Ok(acc)
    else
      var key := data.keys[i];
      if IsProtoName(key) then Err(TypeError)
      else AddResult(Put(acc, key, ValueOr(acc, key) + data.entries[key]), data, i + 1)
  }

  /** The outer loop from result r on. */
  function CombineFrom(acc: Columns, results: seq<Columns>, r: nat): Result<Columns, JsError>
    requires Valid(acc) && r <= |results| && forall q :: 0 <= q < |results| ==> Valid(results[q])
    decreases |results| - r, 0
  {
    if r == |results| then Ok(acc)
    else Continue(AddResult(acc, results[r], 0), results, r + 1)
  }

  /** The rest of the outer loop after one result: stopped by an error, or on from result r. */
  function Continue(step: Result<Columns, JsError>, results: seq<Columns>, r: nat): Result<Columns, JsError>
    requires step.Ok? ==> Valid(step.value)
    requires r <= |results| && forall q :: 0 <= q < |results| ==> Valid(results[q])
    decreases |results| - r, 1
  {
    match step
    case Err(e) => Err(e)
    case Ok(acc) => CombineFrom(acc, results, r)
  }

  /** The combine of all results into a fresh object. */
  function Combine(results: seq<Columns>): Result<Columns, JsError>
    requires forall q :: 0 <= q < |results| ==> Valid(results[q])
  {
    CombineFrom(Empty(), results, 0)
  }

  /** The keys of the results from result r on, each result's keys in order. */
  function KeysFrom(results: seq<Columns>, r: nat): seq<string>
    requires r <= |results|
    decreases |results| - r
  {
    if r == |results| then [] else results[r].keys + KeysFrom(results, r + 1)
  }

  /** What the results from result r on hold under k, in file order. */
  function GatheredFrom(results: seq<Columns>, r: nat, k: string): seq<string>
    requires r <= |results|
    decreases |results| - r
  {
    if r == |results| then [] else ValueOr(results[r], k) + GatheredFrom(results, r + 1, k)
  }

  /** The number of values the results from result r on hold under k. */
  function CountFrom(results: seq<Columns>, r: nat, k: string): nat
    requires r <= |results|
    decreases |results| - r
  {
    if r == |results| then 0 else |ValueOr(results[r], k)| + CountFrom(results, r + 1, k)
  }

  lemma {:induction false} AddResultOk(acc: Columns, data: Columns, i: nat)
    requires Valid(acc) && Valid(data) && i <= |data.keys|
    ensures AddResult(acc, data, i).Ok? <==> forall j :: i <= j < |data.keys| ==> !IsProtoName(data.keys[j])
    decreases |data.keys| - i
  {
    if i < |data.keys| {
      var key := data.keys[i];
      AddResultStep(acc, data, i);
      if IsProtoName(key) {
        assert !(forall j :: i <= j < |data.keys| ==> !IsProtoName(data.keys[j]));
      } else {
        AddResultOk(Put(acc, key, ValueOr(acc, key) + data.entries[key]), data, i + 1);
        assert (forall j :: i <= j < |data.keys| ==> !IsProtoName(data.keys[j])) <==>
          (forall j :: i + 1 <= j < |data.keys| ==> !IsProtoName(data.keys[j]));
      }
    }
  }

  /** One key of the inner loop: a prototype name raises, any other key is appended to. */
  lemma AddResultStep(acc: Columns, data: Columns, i: nat)
    requires Valid(acc) && Valid(data) && i < |data.keys|
    ensures IsProtoName(data.keys[i]) ==> AddResult(acc, data, i) == Err(TypeError)
    ensures !IsProtoName(data.keys[i]) ==>
      AddResult(acc, data, i) ==
      AddResult(Put(acc, data.keys[i], ValueOr(acc, data.keys[i]) + data.entries[data.keys[i]]), data, i + 1)
  {
  }

  /** The inner loop keeps the order of first appearance of the keys. */
  lemma {:induction false} AddResultKeys(acc: Columns, data: Columns, i: nat)
    requires Valid(acc) && Valid(data) && i <= |data.keys| && AddResult(acc, data, i).Ok?
    ensures AddResult(acc, data, i).value.keys == DedupFrom(acc.keys, data.keys[i..])
    decreases |data.keys| - i
  {
    if i == |data.keys| {
      assert data.keys[i..] == [];
    } else {
      var key := data.keys[i];
      var acc' := Put(acc, key, ValueOr(acc, key) + data.entries[key]);
      assert AddResult(acc, data, i) == AddResult(acc', data, i + 1);
      AddResultKeys(acc', data, i + 1);
      var rest := data.keys[i + 1..];
      SuffixCons(data.keys, i);
      DedupFromCons(acc.keys, key, rest);
      assert key in acc.keys <==> key in acc.entries;
      if key in acc.keys {
        assert acc'.keys == acc.keys;
        assert DedupFrom(acc.keys, [key] + rest) == DedupFrom(acc'.keys, rest);
      } else {
        assert acc'.keys == acc.keys + [key];
        assert DedupFrom(acc.keys, [key] + rest) == DedupFrom(acc'.keys, rest);
      }
    }
  }

  /** What the keys of data from the i-th on contribute under k. */
  function ValueFrom(data: Columns, i: nat, k: string): seq<string>
    requires Valid(data) && i <= |data.keys|
    decreases |data.keys| - i
  {
    if i == |data.keys| then []
    else (if data.keys[i] == k then data.entries[k] else []) + ValueFrom(data, i + 1, k)
  }

  /** The inner loop appends to what combined held under k what the remaining keys contribute. */
  lemma {:induction false} AddResultValue(acc: Columns, data: Columns, i: nat, k: string)
    requires Valid(acc) && Valid(data) && i <= |data.keys| && AddResult(acc, data, i).Ok?
    ensures ValueOr(AddResult(acc, data, i).value, k) == ValueOr(acc, k) + ValueFrom(data, i, k)
    decreases |data.keys| - i
  {
    if i < |data.keys| {
      var key := data.keys[i];
      var acc' := Put(acc, key, ValueOr(acc, key) + data.entries[key]);
      assert AddResult(acc, data, i) == AddResult(acc', data, i + 1);
      AddResultValue(acc', data, i + 1, k);
      var later := ValueFrom(data, i + 1, k);
      if k == key {
        assert ValueOr(acc', k) == ValueOr(acc, k) + data.entries[k];
        assert ValueFrom(data, i, k) == data.entries[k] + later;
        ConcatAssociative(ValueOr(acc, k), data.entries[k], later);
      } else {
        assert ValueOr(acc', k) == ValueOr(acc, k);
        assert ValueFrom(data, i, k) == [] + later == later;
      }
    }
  }

  /** A key listed nowhere from i on contributes nothing. */
  lemma {:induction false} ValueFromAbsent(data: Columns, i: nat, k: string)
    requires Valid(data) && i <= |data.keys|
    requires forall j :: i <= j < |data.keys| ==> data.keys[j] != k
    ensures ValueFrom(data, i, k) == []
    decreases |data.keys| - i
  {
    if i < |data.keys| {
      ValueFromAbsent(data, i + 1, k);
    }
  }

  /** A key listed once, at index j, contributes its array exactly when the walk has not yet passed j. */
  lemma {:induction false} ValueFromAt(data: Columns, i: nat, k: string, j: nat)
    requires Valid(data) && i <= j < |data.keys| && data.keys[j] == k
    ensures ValueFrom(data, i, k) == data.entries[k]
    decreases |data.keys| - i
  {
    if i < j {
      assert data.keys[i] != k;
      ValueFromAt(data, i + 1, k, j);
    } else {
      ValueFromAbsent(data, i + 1, k);
    }
  }

  /** All keys of data together contribute what data holds under k. */
  lemma ValueFromWhole(data: Columns, k: string)
    requires Valid(data)
    ensures ValueFrom(data, 0, k) == ValueOr(data, k)
  {
    if k in data.entries {
      var j :| 0 <= j < |data.keys| && data.keys[j] == k;
      ValueFromAt(data, 0, k, j);
    } else {
      ValueFromAbsent(data, 0, k);
    }
  }

  lemma {:induction false} CombineOk(acc: Columns, results: seq<Columns>, r: nat)
    requires Valid(acc) && r <= |results| && forall q :: 0 <= q < |results| ==> Valid(results[q])
    ensures CombineFrom(acc, results, r).Ok? <==> forall q :: r <= q < |results| ==> !HasProtoKey(results[q])
    decreases |results| - r
  {
    if r < |results| {
      AddResultOk(acc, results[r], 0);
      var step := AddResult(acc, results[r], 0);
      assert CombineFrom(acc, results, r) == Continue(step, results, r + 1);
      if step.Ok? {
        CombineOk(step.value, results, r + 1);
        assert !HasProtoKey(results[r]);
        assert (forall q :: r <= q < |results| ==> !HasProtoKey(results[q]))
          <==> (forall q :: r + 1 <= q < |results| ==> !HasProtoKey(results[q]));
      } else {
        var j :| 0 <= j < |results[r].keys| && IsProtoName(results[r].keys[j]);
        assert HasProtoKey(results[r]);
      }
    }
  }

  lemma {:induction false} CombineKeys(acc: Columns, results: seq<Columns>, r: nat)
    requires Valid(acc) && r <= |results| && forall q :: 0 <= q < |results| ==> Valid(results[q])
    requires CombineFrom(acc, results, r).Ok?
    ensures CombineFrom(acc, results, r).value.keys == DedupFrom(acc.keys, KeysFrom(results, r))
    decreases |results| - r
  {
    if r < |results| {
      var data := results[r];
      var step := AddResult(acc, data, 0);
      assert CombineFrom(acc, results, r) == Continue(step, results, r + 1);
      AddResultKeys(acc, data, 0);
      assert data.keys[0..] == data.keys;
      CombineKeys(step.value, results, r + 1);
      DedupFromAppend(acc.keys, data.keys, KeysFrom(results, r + 1));
    }
  }

  lemma {:induction false} CombineValue(acc: Columns, results: seq<Columns>, r: nat, k: string)
    requires Valid(acc) && r <= |results| && forall q :: 0 <= q < |results| ==> Valid(results[q])
    requires CombineFrom(acc, results, r).Ok?
    ensures ValueOr(CombineFrom(acc, results, r).value, k) == ValueOr(acc, k) + GatheredFrom(results, r, k)
    decreases |results| - r
  {
    if r < |results| {
      var data := results[r];
      var step := AddResult(acc, data, 0);
      assert CombineFrom(acc, results, r) == Continue(step, results, r + 1);
      AddResultValue(acc, data, 0, k);
      ValueFromWhole(data, k);
      CombineValue(step.value, results, r + 1, k);
      ConcatAssociative(ValueOr(acc, k), ValueOr(data, k), GatheredFrom(results, r + 1, k));
    }
  }

  /** The combined object is a valid one: CombineFrom ends in Ok(acc) for some valid acc. */
  lemma {:induction false} CombineValid(acc: Columns, results: seq<Columns>, r: nat)
    requires Valid(acc) && r <= |results| && forall q :: 0 <= q < |results| ==> Valid(results[q])
    requires CombineFrom(acc, results, r).Ok?
    ensures Valid(CombineFrom(acc, results, r).value)
    decreases |results| - r
  {
    if r < |results| {
      var step := AddResult(acc, results[r], 0);
      assert CombineFrom(acc, results, r) == Continue(step, results, r + 1);
      CombineValid(step.value, results, r + 1);
    }
  }

  lemma {:induction false} GatheredCount(results: seq<Columns>, r: nat, k: string)
    requires r <= |results|
    ensures |GatheredFrom(results, r, k)| == CountFrom(results, r, k)
    decreases |results| - r
  {
    if r < |results| {
      GatheredCount(results, r + 1, k);
    }
  }

  /**
   * Combining raises exactly when some result has a key that is an
   * inherited member name of Object.prototype. Otherwise the keys come in
   * order of first appearance across the files, and each key holds the
   * concatenation, in file order, of the arrays the results hold under it,
   * as many values as they hold together.
   */
  lemma CombinedResults(results: seq<Columns>, k: string)
    requires forall q :: 0 <= q < |results| ==> Valid(results[q])
    ensures Combine(results).Err? <==> exists q :: 0 <= q < |results| && HasProtoKey(results[q])
    ensures Combine(results).Ok? ==>
      Valid(Combine(results).value)
      && Combine(results).value.keys == Dedup(KeysFrom(results, 0))
      && (k in Combine(results).value.entries <==> k in KeysFrom(results, 0))
      && ValueOr(Combine(results).value, k) == GatheredFrom(results, 0, k)
      && |ValueOr(Combine(results).value, k)| == CountFrom(results, 0, k)
  {
    CombineOk(Empty(), results, 0);
    if Combine(results).Ok? {
      var combined := Combine(results).value;
      CombineValid(Empty(), results, 0);
      CombineKeys(Empty(), results, 0);
      CombineValue(Empty(), results, 0, k);
      GatheredCount(results, 0, k);
      assert k in combined.entries <==> k in combined.keys;
    }
  }

  /** The loops of the combine, over the results in file order and each result's keys. */
  method CombineResults(results: seq<Columns>) returns (combined: Result<Columns, JsError>)
    requires forall q :: 0 <= q < |results| ==> Valid(results[q])
    ensures combined == Combine(results)
  {
    var acc: Columns := Empty();
    var r := 0;
    while r < |results|
      invariant r <= |results| && Valid(acc)
      invariant CombineFrom(acc, results, r) == Combine(results)
    {
      var data := results[r];
      assert CombineFrom(acc, results, r) == Continue(AddResult(acc, data, 0), results, r + 1);
      var i := 0;
      while i < |data.keys|
        invariant i <= |data.keys| && Valid(acc)
        invariant Continue(AddResult(acc, data, i), results, r + 1) == Combine(results)
      {
        var key := data.keys[i];
        AddResultStep(acc, data, i);
        if IsProtoName(key) {
          return Err(TypeError);
        }
        acc := Put(acc, key, ValueOr(acc, key) + data.entries[key]);
        i := i + 1;
      }
      assert AddResult(acc, data, i) == Ok(acc);
      r := r + 1;
    }
    combined := Ok(acc);
  }

  // ---------------------------------------------------------------- the preview grid

  /**
   * Math.max over the lengths of the columns from the i-th key on; over no
   * columns at all it is -Infinity, which a row loop treats as 0.
   */
  function MaxFrom(m: Columns, i: nat): (r: nat)
    requires Valid(m) && i <= |m.keys|
    ensures forall j :: i <= j < |m.keys| ==> |m.entries[m.keys[j]]| <= r
    ensures i == |m.keys| ==> r == 0
    ensures i < |m.keys| ==> exists j :: i <= j < |m.keys| && |m.entries[m.keys[j]]| == r
    decreases |m.keys| - i
  {
    if i == |m.keys| then 0
    else
      var here, rest := |m.entries[m.keys[i]]|, MaxFrom(m, i + 1);
      if here >= rest then here else rest
  }

  /** The length of the longest column, 0 when there is none. */
  function MaxLength(m: Columns): nat
    requires Valid(m)
  {
    MaxFrom(m, 0)
  }

  /** colData[i] || "": the i-th value of a column, or "" past its end. */
  function CellOf(col: seq<string>, i: nat): string {
    if i < |col| then col[i] else ""
  }

  /** Row i of the preview: one cell per key, in key order. */
  function PreviewRow(m: Columns, i: nat): seq<string>
    requires Valid(m)
  {
    seq(|m.keys|, j requires 0 <= j < |m.keys| => CellOf(m.entries[m.keys[j]], i))
  }

  /**
   * The preview has as many rows as the longest column: every value of every
   * column is shown, in the row of its index and the column of its key, and
   * some column reaches the last row.
   */
  lemma PreviewSize(m: Columns)
    requires Valid(m)
    ensures forall j, i :: 0 <= j < |m.keys| && 0 <= i < |m.entries[m.keys[j]]| ==>
      i < MaxLength(m) && PreviewRow(m, i)[j] == m.entries[m.keys[j]][i]
    ensures |m.keys| > 0 ==> exists j :: 0 <= j < |m.keys| && |m.entries[m.keys[j]]| == MaxLength(m)
    ensures |m.keys| == 0 ==> MaxLength(m) == 0
  {
    var longest := MaxFrom(m, 0);
    assert MaxLength(m) == longest;
    forall j, i | 0 <= j < |m.keys| && 0 <= i < |m.entries[m.keys[j]]|
      ensures i < MaxLength(m) && PreviewRow(m, i)[j] == m.entries[m.keys[j]][i]
    {
      assert |m.entries[m.keys[j]]| <= longest;
    }
  }

  /** previewInTable's header row and body rows. */
  method PreviewGrid(mapped: Columns) returns (headers: seq<string>, rows: seq<seq<string>>)
    requires Valid(mapped)
    ensures headers == mapped.keys
    ensures |rows| == MaxLength(mapped)
    ensures forall i :: 0 <= i < |rows| ==> rows[i] == PreviewRow(mapped, i)
  {
    headers := mapped.keys;
    var maxLength := MaxLength(mapped);
    rows := [];
    var i := 0;
    while i < maxLength
      invariant 0 <= i <= maxLength && |rows| == i
      invariant forall r :: 0 <= r < i ==> rows[r] == PreviewRow(mapped, r)
    {
      var row: seq<string> := [];
      var j := 0;
      while j < |headers|
        invariant 0 <= j <= |headers| && |row| == j
        invariant forall c :: 0 <= c < j ==> row[c] == CellOf(mapped.entries[headers[c]], i)
      {
        row := row + [CellOf(mapped.entries[headers[j]], i)];
        j := j + 1;
      }
      assert row == PreviewRow(mapped, i);
      rows := rows + [row];
      i := i + 1;
    }
  }

  // ---------------------------------------------------------------- rows for the worksheet

  /** The array a worksheet column reads from, or none: an own pdf key that mapped lacks. */
  datatype Column = Values(cells: seq<string>) | Missing

  /** The property name headerMap[excelHeader] looks up: an undefined header reads "undefined". */
  function HeaderKey(header: Option<string>): string {
    if header.None? then "undefined" else header.value
  }

  /**
   * Every worksheet header that names a member of Object.prototype is an own
   * key of the header map (so headerMap[excelHeader] never reaches the
   * prototype).
   */
  predicate ProtoHeadersOwn(excelHeaders: seq<Option<string>>, headerMap: HeaderTable) {
    forall h :: 0 <= h < |excelHeaders| && excelHeaders[h].Some? && IsProtoName(excelHeaders[h].value) ==>
      excelHeaders[h].value in headerMap
  }

  /**
   * const pdfKey = headerMap[excelHeader]; const colData = pdfKey ?
   * mapped[pdfKey] : []. An inherited name as pdf key reads a function or
   * Object.prototype, whose indexed properties are all undefined.
   */
  function ColumnFor(headerMap: HeaderTable, mapped: Columns, header: Option<string>): Column
    requires header.Some? && IsProtoName(header.value) ==> header.value in headerMap
  {
    var key := HeaderKey(header);
    if key in headerMap && Truthy(headerMap[key]) then
      var pdfKey := headerMap[key].value;
      if pdfKey in mapped.entries then Values(mapped.entries[pdfKey])
      else if IsProtoName(pdfKey) then Values([])
      else Missing
    else Values([])
  }

  /** The column each worksheet header reads from. */
  function ExcelColumns(excelHeaders: seq<Option<string>>, headerMap: HeaderTable, mapped: Columns): (cols: seq<Column>)
    requires ProtoHeadersOwn(excelHeaders, headerMap)
    ensures |cols| == |excelHeaders|
  {
    seq(|excelHeaders|, h requires 0 <= h < |excelHeaders| => ColumnFor(headerMap, mapped, excelHeaders[h]))
  }

  /** A cell of row i, reading a missing column as empty. */
  function ColumnCell(c: Column, i: nat): string {
    match c
    case Values(cells) => CellOf(cells, i)
    case Missing => ""
  }

  /** Row i of the grid: one cell per worksheet column. */
  function GridRow(cols: seq<Column>, i: nat): (row: seq<string>)
    ensures |row| == |cols|
  {
    seq(|cols|, h requires 0 <= h < |cols| => ColumnCell(cols[h], i))
  }

  predicate Blank(row: seq<string>) {
    forall c :: 0 <= c < |row| ==> row[c] == ""
  }

  /** The rows among the first n of the grid that have a non-empty cell, in order. */
  function KeptRows(cols: seq<Column>, n: nat): seq<seq<string>> {
    if n == 0 then []
    else KeptRows(cols, n - 1) + (if Blank(GridRow(cols, n - 1)) then [] else [GridRow(cols, n - 1)])
  }

  predicate SomeMissing(cols: seq<Column>) {
    exists h :: 0 <= h < |cols| && cols[h].Missing?
  }

  /**
   * The rows appended to the worksheet, as written: reading colData[i] of a
   * missing column raises a TypeError as soon as there is a row to build.
   */
  function AssembledRows(excelHeaders: seq<Option<string>>, headerMap: HeaderTable, mapped: Columns): Result<seq<seq<string>>, JsError>
    requires Valid(mapped) && ProtoHeadersOwn(excelHeaders, headerMap)
  {
    if MaxLength(mapped) > 0 && SomeMissing(ExcelColumns(excelHeaders, headerMap, mapped)) then Err(TypeError)
    else Ok(DataRows(excelHeaders, headerMap, mapped))
  }

  /** The rows as evidently intended: a pdf key that mapped lacks reads as an empty column. */
  function DataRows(excelHeaders: seq<Option<string>>, headerMap: HeaderTable, mapped: Columns): seq<seq<string>>
    requires Valid(mapped) && ProtoHeadersOwn(excelHeaders, headerMap)
  {
    KeptRows(ExcelColumns(excelHeaders, headerMap, mapped), MaxLength(mapped))
  }

  /** At most n rows are kept, each with one cell per column and a non-empty one among them. */
  lemma {:induction false} KeptRowsShape(cols: seq<Column>, n: nat)
    ensures |KeptRows(cols, n)| <= n
    ensures forall r :: 0 <= r < |KeptRows(cols, n)| ==>
      |KeptRows(cols, n)[r]| == |cols| && !Blank(KeptRows(cols, n)[r])
  {
    if n > 0 {
      KeptRowsShape(cols, n - 1);
    }
  }

  /** The kept rows are grid rows, and every non-blank grid row below n is kept. */
  lemma {:induction false} KeptRowsAreNonBlankRows(cols: seq<Column>, n: nat)
    ensures forall r :: 0 <= r < |KeptRows(cols, n)| ==> exists i :: 0 <= i < n && KeptRows(cols, n)[r] == GridRow(cols, i)
    ensures forall i :: 0 <= i < n && !Blank(GridRow(cols, i)) ==> GridRow(cols, i) in KeptRows(cols, n)
  {
    if n > 0 {
      KeptRowsAreNonBlankRows(cols, n - 1);
      var before, kept := KeptRows(cols, n - 1), KeptRows(cols, n);
      forall r | 0 <= r < |kept| ensures exists i :: 0 <= i < n && kept[r] == GridRow(cols, i) {
        if r < |before| {
          var i :| 0 <= i < n - 1 && before[r] == GridRow(cols, i);
          assert kept[r] == before[r];
        } else {
          assert kept[r] == GridRow(cols, n - 1);
        }
      }
    } else {
      assert KeptRows(cols, n) == [];
    }
  }

  /** The rows kept from fewer grid rows come first, in the same order. */
  lemma {:induction false} KeptRowsPrefix(cols: seq<Column>, m: nat, n: nat)
    requires m <= n
    ensures KeptRows(cols, m) <= KeptRows(cols, n)
    decreases n
  {
    if m < n {
      KeptRowsPrefix(cols, m, n - 1);
    }
  }

  /**
   * The assembly raises exactly when there is a row to build and some
   * worksheet header maps to a truthy pdf key that is neither a key of the
   * result nor an inherited name; otherwise it yields the intended rows.
   */
  lemma AssemblyRaises(excelHeaders: seq<Option<string>>, headerMap: HeaderTable, mapped: Columns)
    requires Valid(mapped) && ProtoHeadersOwn(excelHeaders, headerMap)
    ensures AssembledRows(excelHeaders, headerMap, mapped).Err? <==>
      MaxLength(mapped) > 0 && exists h :: (0 <= h < |excelHeaders|
        && HeaderKey(excelHeaders[h]) in headerMap && Truthy(headerMap[HeaderKey(excelHeaders[h])])
        && headerMap[HeaderKey(excelHeaders[h])].value !in mapped.entries
        && !IsProtoName(headerMap[HeaderKey(excelHeaders[h])].value))
    ensures AssembledRows(excelHeaders, headerMap, mapped).Ok? ==>
      AssembledRows(excelHeaders, headerMap, mapped).value == DataRows(excelHeaders, headerMap, mapped)
  {
    var cols := ExcelColumns(excelHeaders, headerMap, mapped);
    assert forall h :: 0 <= h < |excelHeaders| ==> cols[h] == ColumnFor(headerMap, mapped, excelHeaders[h]);
  }

  /**
   * A saved mapping to a pdf key this result lacks: the merge fills the null
   * entry of Bemerkung, and the assembly then raises where the intended
   * rows fill the column with empty cells.
   */
  lemma MissingSavedKeyRaises()
    ensures AssembledRows([Some("Kabelnummer"), Some("Bemerkung")],
      MergedWithSaved(map["Kabelnummer" := Some("Kabelnummer"), "Bemerkung" := None], map["Bemerkung" := Some("Bemerkung")]),
      OMap(["Kabelnummer"], map["Kabelnummer" := ["K1"]])) == Err(TypeError)
    ensures DataRows([Some("Kabelnummer"), Some("Bemerkung")],
      MergedWithSaved(map["Kabelnummer" := Some("Kabelnummer"), "Bemerkung" := None], map["Bemerkung" := Some("Bemerkung")]),
      OMap(["Kabelnummer"], map["Kabelnummer" := ["K1"]])) == [["K1", ""]]
  {
    var headers := [Some("Kabelnummer"), Some("Bemerkung")];
    var headerMap := MergedWithSaved(map["Kabelnummer" := Some("Kabelnummer"), "Bemerkung" := None], map["Bemerkung" := Some("Bemerkung")]);
    var mapped: Columns := OMap(["Kabelnummer"], map["Kabelnummer" := ["K1"]]);
    assert headerMap["Bemerkung"] == Some("Bemerkung") && headerMap["Kabelnummer"] == Some("Kabelnummer");
    assert !IsProtoName("Kabelnummer") && !IsProtoName("Bemerkung");
    assert MaxLength(mapped) == 1;
    var cols := ExcelColumns(headers, headerMap, mapped);
    assert cols[0] == Values(["K1"]) && cols[1] == Missing;
    assert GridRow(cols, 0) == ["K1", ""];
    assert GridRow(cols, 0)[0] != "";
    assert KeptRows(cols, 1) == KeptRows(cols, 0) + [GridRow(cols, 0)];
  }

  /**
   * A header map built by createHeaderMapWithAliases and merged with saved
   * mappings has every worksheet header that names a member of
   * Object.prototype as an own key: such a header is entered, and the
   * builder gives every entered header an entry or raises.
   */
  lemma CreatedMapOwnsProtoHeaders(excelHeaders: seq<Option<string>>, mappedKeys: seq<string>,
                                   aliases: map<string, seq<string>>, saved: map<string, Option<string>>)
    ensures HeaderMapWithAliases(excelHeaders, mappedKeys, aliases).Ok? ==>
      ProtoHeadersOwn(excelHeaders, MergedWithSaved(HeaderMapWithAliases(excelHeaders, mappedKeys, aliases).value, saved))
  {
    var created := HeaderMapWithAliases(excelHeaders, mappedKeys, aliases);
    if created.Ok? {
      forall h | 0 <= h < |excelHeaders| && excelHeaders[h].Some? && IsProtoName(excelHeaders[h].value)
        ensures excelHeaders[h].value in created.value
      {
        var s := excelHeaders[h].value;
        ProtoNameTrimmed(s);
        assert Entered(excelHeaders, h);
        HeaderMapContents(excelHeaders, mappedKeys, aliases, s);
      }
    }
  }

  /** The loops that build dataRows, row by row. */
  method AssembleRows(excelHeaders: seq<Option<string>>, headerMap: HeaderTable, mapped: Columns)
    returns (result: Result<seq<seq<string>>, JsError>)
    requires Valid(mapped) && ProtoHeadersOwn(excelHeaders, headerMap)
    ensures result == AssembledRows(excelHeaders, headerMap, mapped)
  {
    var maxRows := MaxLength(mapped);
    ghost var cols := ExcelColumns(excelHeaders, headerMap, mapped);
    var dataRows: seq<seq<string>> := [];
    var i := 0;
    while i < maxRows
      invariant 0 <= i <= maxRows
      invariant dataRows == KeptRows(cols, i)
      invariant i > 0 ==> !SomeMissing(cols)
    {
      var built := BuildRow(excelHeaders, headerMap, mapped, i);
      if built.Err? {
        return Err(TypeError);
      }
      var row := built.value;
      assert KeptRows(cols, i + 1) == dataRows + (if Blank(row) then [] else [row]);
      if exists c :: 0 <= c < |row| && row[c] != "" {
        dataRows := dataRows + [row];
      } else {
        assert Blank(row);
      }
      i := i + 1;
    }
    result := Ok(dataRows);
  }

  /** The cell loop of row i: one cell per worksheet header, or the TypeError of a missing column. */
  method BuildRow(excelHeaders: seq<Option<string>>, headerMap: HeaderTable, mapped: Columns, i: nat)
    returns (built: Result<seq<string>, JsError>)
    requires ProtoHeadersOwn(excelHeaders, headerMap)
    ensures built.Err? <==> SomeMissing(ExcelColumns(excelHeaders, headerMap, mapped))
    ensures built.Ok? ==> built.value == GridRow(ExcelColumns(excelHeaders, headerMap, mapped), i)
  {
    ghost var cols := ExcelColumns(excelHeaders, headerMap, mapped);
    var row: seq<string> := [];
    var h := 0;
    while h < |excelHeaders|
      invariant 0 <= h <= |excelHeaders| && |row| == h
      invariant forall c :: 0 <= c < h ==> !cols[c].Missing? && row[c] == ColumnCell(cols[c], i)
    {
      assert cols[h] == ColumnFor(headerMap, mapped, excelHeaders[h]);
      var key := HeaderKey(excelHeaders[h]);
      var colData: seq<string>;
      if key in headerMap && Truthy(headerMap[key]) {
        var pdfKey := headerMap[key].value;
        if pdfKey in mapped.entries {
          colData := mapped.entries[pdfKey];
        } else if IsProtoName(pdfKey) {
          colData := [];
        } else {
          assert cols[h].Missing?;
          return Err(TypeError);
        }
      } else {
        colData := [];
      }
      assert cols[h] == Values(colData);
      row := row + [CellOf(colData, i)];
      h := h + 1;
    }
    assert row == GridRow(cols, i);
    built := Ok(row);
  }
}
