/**
 * Column-label de-duplication (make_unique in main.py): the first
 * occurrence of a label is kept, the k-th repetition of the same label
 * becomes label_k.
 */
module ColumnLabels {
  import opened Wrappers
  import opened UnicodeText

  /** str(cell) for a cell of an extracted table: strings stay, None becomes "None". */
  function Label(cell: Option<string>): string {
    match cell
    case None => "None"
    case Some(s) => s
  }

  function Labels(cells: seq<Option<string>>): (r: seq<string>)
    ensures |r| == |cells| && forall i :: 0 <= i < |cells| ==> r[i] == Label(cells[i])
  {
    seq(|cells|, i requires 0 <= i < |cells| => Label(cells[i]))
  }

  /** How often c occurs in labels. */
  function Occurrences(labels: seq<string>, c: string): nat {
    if |labels| == 0 then 0
    else Occurrences(labels[..|labels| - 1], c) + (if labels[|labels| - 1] == c then 1 else 0)
  }

  /** A label with its repetition counter: unchanged for k = 0, label_k otherwise. */
  function Suffixed(c: string, k: nat): string {
    if k == 0 then c else c + "_" + NatToDecimal(k)
  }

  /** The label make_unique gives column i: its own label, suffixed by how often that label appeared before. */
  function UniqueLabelAt(labels: seq<string>, i: nat): string
    requires i < |labels|
  {
    Suffixed(labels[i], Occurrences(labels[..i], labels[i]))
  }

  /** The whole result of make_unique, as a function for use in specifications. */
  function UniqueLabels(cells: seq<Option<string>>): (r: seq<string>)
    ensures |r| == |cells|
  {
    seq(|cells|, i requires 0 <= i < |cells| => UniqueLabelAt(Labels(cells), i))
  }

  /** How often c occurs in the first i+1 labels, one label more than the first i. */
  lemma OccurrencesSnoc(labels: seq<string>, i: nat, c: string)
    requires i < |labels|
    ensures Occurrences(labels[..i + 1], c) == Occurrences(labels[..i], c) + (if labels[i] == c then 1 else 0)
  {
    assert labels[..i + 1][..i] == labels[..i];
  }

  /** The counters of make_unique after i columns: one less than the occurrences so far, for every label met. */
  ghost predicate Counted(seen: map<string, nat>, labels: seq<string>, i: nat)
    requires i <= |labels|
  {
    (forall c :: c in seen <==> Occurrences(labels[..i], c) > 0)
    && (forall c :: c in seen ==> seen[c] == Occurrences(labels[..i], c) - 1)
  }

  /** Counting column i: a new label gets counter 0, a known one its counter plus one. */
  lemma CountedStep(seen: map<string, nat>, labels: seq<string>, i: nat)
    requires i < |labels| && Counted(seen, labels, i)
    ensures labels[i] in seen ==> Counted(seen[labels[i] := seen[labels[i]] + 1], labels, i + 1)
    ensures labels[i] in seen ==> UniqueLabelAt(labels, i) == labels[i] + "_" + NatToDecimal(seen[labels[i]] + 1)
    ensures labels[i] !in seen ==> Counted(seen[labels[i] := 0], labels, i + 1)
    ensures labels[i] !in seen ==> UniqueLabelAt(labels, i) == labels[i]
  {
    forall c ensures Occurrences(labels[..i + 1], c) == Occurrences(labels[..i], c) + (if labels[i] == c then 1 else 0) {
      OccurrencesSnoc(labels, i, c);
    }
  }

  /** The labels for the first i columns, followed by the label for column i. */
  lemma LabelAppended(before: seq<string>, labels: seq<string>, i: nat, after: seq<string>)
    requires i < |labels| && |before| == i
    requires forall j :: 0 <= j < i ==> before[j] == UniqueLabelAt(labels, j)
    requires after == before + [UniqueLabelAt(labels, i)]
    ensures |after| == i + 1 && forall j :: 0 <= j < i + 1 ==> after[j] == UniqueLabelAt(labels, j)
  {
  }

  /**
   * make_unique: walks the columns once, keeping in `seen` how many
   * repetitions of each label it has met so far.
   */
  method MakeUnique(columns: seq<Option<string>>) returns (result: seq<string>)
    ensures |result| == |columns|
    ensures forall i :: 0 <= i < |columns| ==>
      result[i] == Suffixed(Label(columns[i]), Occurrences(Labels(columns)[..i], Label(columns[i])))
    ensures result == UniqueLabels(columns)
  {
    ghost var labels := Labels(columns);
    var seen: map<string, nat> := map[];
    result := [];
    var i := 0;
    while i < |columns|
      invariant 0 <= i <= |columns|
      invariant |result| == i
      invariant forall j :: 0 <= j < i ==> result[j] == UniqueLabelAt(labels, j)
      invariant Counted(seen, labels, i)
    {
      var col := Label(columns[i]);
      assert col == labels[i];
      CountedStep(seen, labels, i);
      ghost var before := result;
      if col in seen {
        seen := seen[col := seen[col] + 1];
        result := result + [col + "_" + NatToDecimal(seen[col])];
      } else {
        seen := seen[col := 0];
        result := result + [col];
      }
      LabelAppended(before, labels, i, result);
      i := i + 1;
    }
    assert forall j :: 0 <= j < |columns| ==> result[j] == UniqueLabels(columns)[j];
  }

  lemma {:induction false} OccurrencesZero(labels: seq<string>, c: string)
    ensures Occurrences(labels, c) == 0 <==> c !in labels
  {
    if |labels| > 0 {
      OccurrencesZero(labels[..|labels| - 1], c);
      assert labels == labels[..|labels| - 1] + [labels[|labels| - 1]];
    }
  }

  /** A label met for the first time keeps its text. */
  lemma FirstOccurrenceKept(cells: seq<Option<string>>, i: nat)
    requires i < |cells|
    requires forall j :: 0 <= j < i ==> Label(cells[j]) != Label(cells[i])
    ensures UniqueLabels(cells)[i] == Label(cells[i])
  {
    OccurrencesZero(Labels(cells)[..i], Label(cells[i]));
  }

  /** When no label repeats, make_unique only converts the cells to strings. */
  lemma NoRepeatsUnchanged(cells: seq<Option<string>>)
    requires forall i, j :: 0 <= i < j < |cells| ==> Label(cells[i]) != Label(cells[j])
    ensures UniqueLabels(cells) == Labels(cells)
  {
    forall i | 0 <= i < |cells|
      ensures UniqueLabels(cells)[i] == Labels(cells)[i]
    {
      FirstOccurrenceKept(cells, i);
    }
  }

  /**
   * The counter runs per original label and a generated name is not checked
   * against the other labels, so the result can still repeat a label:
   * a, a, a_1 becomes a, a_1, a_1.
   */
  lemma GeneratedNameCanCollide()
    ensures UniqueLabels([Some("a"), Some("a"), Some("a_1")]) == ["a", "a_1", "a_1"]
  {
    var cells := [Some("a"), Some("a"), Some("a_1")];
    var labels := Labels(cells);
    assert labels == ["a", "a", "a_1"];
    assert labels[..1][..0] == [];
    assert Occurrences(labels[..1], "a") == 1;
    OccurrencesZero(labels[..2], "a_1");
    assert "a_1" !in labels[..2];
    assert NatToDecimal(1) == "1";
    var r := UniqueLabels(cells);
    assert r[0] == "a" && r[1] == "a_1" && r[2] == "a_1";
  }
}
