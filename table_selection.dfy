/**
 * Locating the header row of a document and building its frame
 * (extract_data_from_pdf in main.py): the row-based search over all pages
 * and tables, and the fallback that takes the first plausible header row.
 */
module TableSelection {
  import opened Wrappers
  import opened Sequences
  import opened HeaderResolver
  import opened ColumnLabels
  import opened Frames

  /** One page's extract_tables() result; None when that call raised. */
  type Page = Option<seq<Table>>

  /** A candidate header row: a table and the index of one of its rows. */
  datatype Candidate = Candidate(table: Table, index: nat)

  /** The row a candidate designates. */
  function RowOf(c: Candidate): Row {
    if c.index < |c.table| then c.table[c.index] else []
  }

  /** The rows below the candidate row, which become the frame's data. */
  function RowsBelow(c: Candidate): seq<Row> {
    if c.index < |c.table| then c.table[c.index + 1..] else []
  }

  /** The number of cells of a row that resolve to a field. */
  function Score(close: Closeness, row: Row): (n: nat)
    ensures n <= |row|
  {
    if |row| == 0 then 0
    else (if MatchHeader(close, row[0]).Some? then 1 else 0) + Score(close, row[1..])
  }

  function CandidateScore(close: Closeness, c: Candidate): nat {
    Score(close, RowOf(c))
  }

  // ---------------------------------------------------------------- document order

  /** The rows of one table from row r on. */
  function RowsFrom(table: Table, r: nat): (cs: seq<Candidate>)
    ensures |cs| == if r <= |table| then |table| - r else 0
    ensures forall k :: 0 <= k < |cs| ==> cs[k] == Candidate(table, r + k)
    ensures forall c :: c in cs ==> c.index < |c.table|
    decreases |table| - r
  {
    if r >= |table| then [] else [Candidate(table, r)] + RowsFrom(table, r + 1)
  }

  /** The rows of a page's tables, table by table. */
  function TablesRows(tables: seq<Table>): (cs: seq<Candidate>)
    ensures forall c :: c in cs ==> c.index < |c.table|
  {
    if |tables| == 0 then [] else RowsFrom(tables[0], 0) + TablesRows(tables[1..])
  }

  /** A page whose extraction raised contributes no rows. */
  function PageRows(page: Page): (cs: seq<Candidate>)
    ensures forall c :: c in cs ==> c.index < |c.table|
  {
    match page
    case None => []
    case Some(tables) => TablesRows(tables)
  }

  /** Every row of every table of every page, in the order the loops visit them. */
  function DocumentRows(pages: seq<Page>): (cs: seq<Candidate>)
    ensures forall c :: c in cs ==> c.index < |c.table|
  {
    if |pages| == 0 then [] else PageRows(pages[0]) + DocumentRows(pages[1..])
  }

  lemma {:induction false} DocumentRowsAppend(a: seq<Page>, b: seq<Page>)
    ensures DocumentRows(a + b) == DocumentRows(a) + DocumentRows(b)
  {
    if |a| > 0 {
      ConcatTail(a, b);
      DocumentRowsAppend(a[1..], b);
      calc {
        DocumentRows(a + b);
        PageRows(a[0]) + DocumentRows(a[1..] + b);
        PageRows(a[0]) + (DocumentRows(a[1..]) + DocumentRows(b));
        (PageRows(a[0]) + DocumentRows(a[1..])) + DocumentRows(b);
      }
    } else {
      assert a + b == b;
    }
  }

  // ---------------------------------------------------------------- row-based search

  /** The search state: beste_score and the (table, row) it belongs to. */
  datatype Selection = Selection(score: nat, best: Option<Candidate>)

  const NoSelection: Selection := Selection(0, None)

  /** The score of each candidate row, as a function the search is written over. */
  function RowScore(close: Closeness): Candidate -> nat {
    c => CandidateScore(close, c)
  }

  /** One step of the search: a row replaces the best one only with a strictly higher score. */
  function Consider(score: Candidate -> nat, s: Selection, c: Candidate): Selection {
    if score(c) > s.score then Selection(score(c), Some(c)) else s
  }

  function SelectFrom(score: Candidate -> nat, s: Selection, cs: seq<Candidate>): Selection
    decreases |cs|
  {
    if |cs| == 0 then s else SelectFrom(score, Consider(score, s, cs[0]), cs[1..])
  }

  /** The row the search keeps after visiting the whole document. */
  function BestHeaderRow(close: Closeness, pages: seq<Page>): Selection {
    SelectFrom(RowScore(close), NoSelection, DocumentRows(pages))
  }

  lemma {:induction false} SelectFromAppend(score: Candidate -> nat, s: Selection, a: seq<Candidate>, b: seq<Candidate>)
    ensures SelectFrom(score, s, a + b) == SelectFrom(score, SelectFrom(score, s, a), b)
    decreases |a|
  {
    if |a| == 0 {
      assert a + b == b;
    } else {
      ConcatTail(a, b);
      SelectFromAppend(score, Consider(score, s, a[0]), a[1..], b);
    }
  }

  /**
   * Starting from s, the search ends with a score no row exceeds; it keeps s
   * unless some row beats s.score, and then it keeps the first row that
   * reaches the final score.
   */
  lemma {:induction false} SelectFromIsFirstMaximum(score: Candidate -> nat, s: Selection, cs: seq<Candidate>)
    ensures SelectFrom(score, s, cs).score >= s.score
    ensures forall i :: 0 <= i < |cs| ==> score(cs[i]) <= SelectFrom(score, s, cs).score
    ensures SelectFrom(score, s, cs).score == s.score ==> SelectFrom(score, s, cs) == s
    ensures SelectFrom(score, s, cs).score > s.score ==>
      exists i :: 0 <= i < |cs| && SelectFrom(score, s, cs).best == Some(cs[i])
        && score(cs[i]) == SelectFrom(score, s, cs).score
        && forall j :: 0 <= j < i ==> score(cs[j]) < SelectFrom(score, s, cs).score
    decreases |cs|
  {
    if |cs| > 0 {
      var s' := Consider(score, s, cs[0]);
      SelectFromIsFirstMaximum(score, s', cs[1..]);
      var r := SelectFrom(score, s, cs);
      assert r == SelectFrom(score, s', cs[1..]);
      forall i | 0 <= i < |cs| ensures score(cs[i]) <= r.score {
        if i > 0 { assert cs[i] == cs[1..][i - 1]; }
      }
      if r.score > s'.score {
        var i :| 0 <= i < |cs[1..]| && r.best == Some(cs[1..][i])
          && score(cs[1..][i]) == r.score
          && forall j :: 0 <= j < i ==> score(cs[1..][j]) < r.score;
        forall j | 0 <= j < i + 1 ensures score(cs[j]) < r.score {
          if j > 0 { assert cs[j] == cs[1..][j - 1]; }
        }
        assert r.best == Some(cs[i + 1]);
      } else if r.score > s.score {
        assert r == s' && r.best == Some(cs[0]);
      }
    }
  }

  /**
   * The row-based search over a whole document: the kept row has the highest
   * score of all rows, every earlier row scores strictly less (ties go to the
   * first), and no row is kept when no cell of the document resolves.
   */
  lemma BestHeaderRowIsFirstMaximum(close: Closeness, pages: seq<Page>)
    ensures var sel := BestHeaderRow(close, pages); var cs := DocumentRows(pages);
      && (forall i :: 0 <= i < |cs| ==> CandidateScore(close, cs[i]) <= sel.score)
      && (sel.best.None? <==> sel.score == 0)
      && (sel.best.Some? ==> exists i :: (0 <= i < |cs| && sel.best == Some(cs[i])
            && CandidateScore(close, cs[i]) == sel.score
            && forall j :: 0 <= j < i ==> CandidateScore(close, cs[j]) < sel.score))
  {
    SelectFromIsFirstMaximum(RowScore(close), NoSelection, DocumentRows(pages));
  }

  /** The search at row r of a table, one row unfolded. */
  lemma ScanStep(close: Closeness, s: Selection, table: Table, r: nat)
    requires r < |table|
    ensures SelectFrom(RowScore(close), s, RowsFrom(table, r))
      == SelectFrom(RowScore(close),
           if Score(close, table[r]) > s.score then Selection(Score(close, table[r]), Some(Candidate(table, r))) else s,
           RowsFrom(table, r + 1))
  {
    assert RowsFrom(table, r)[1..] == RowsFrom(table, r + 1);
    assert RowScore(close)(Candidate(table, r)) == Score(close, table[r]);
  }

  /** The inner loop of the row-based search: every row of one table, top to bottom. */
  method ScanTable(close: Closeness, table: Table, sel: Selection) returns (next: Selection)
    ensures next == SelectFrom(RowScore(close), sel, RowsFrom(table, 0))
  {
    next := sel;
    var r := 0;
    while r < |table|
      invariant 0 <= r <= |table|
      invariant SelectFrom(RowScore(close), next, RowsFrom(table, r)) == SelectFrom(RowScore(close), sel, RowsFrom(table, 0))
    {
      ScanStep(close, next, table, r);
      var score := Score(close, table[r]);
      if score > next.score {
        next := Selection(score, Some(Candidate(table, r)));
      }
      assert SelectFrom(RowScore(close), next, RowsFrom(table, r + 1)) == SelectFrom(RowScore(close), sel, RowsFrom(table, 0));
      r := r + 1;
    }
  }

  /** The middle loop: the tables of one page, in order. */
  method ScanPage(close: Closeness, tables: seq<Table>, sel: Selection) returns (next: Selection)
    ensures next == SelectFrom(RowScore(close), sel, TablesRows(tables))
  {
    next := sel;
    var t := 0;
    while t < |tables|
      invariant 0 <= t <= |tables|
      invariant SelectFrom(RowScore(close), next, TablesRows(tables[t..])) == SelectFrom(RowScore(close), sel, TablesRows(tables))
    {
      assert tables[t..][0] == tables[t] && tables[t..][1..] == tables[t + 1..];
      SelectFromAppend(RowScore(close), next, RowsFrom(tables[t], 0), TablesRows(tables[t + 1..]));
      next := ScanTable(close, tables[t], next);
      t := t + 1;
    }
  }

  /**
   * The row-based search: beste_score, beste_tabelle and beste_header_zeile
   * (kept together as a Selection) after the page loop; pages whose
   * extraction raised and pages without tables are skipped.
   */
  method FindHeaderRow(close: Closeness, pages: seq<Page>) returns (sel: Selection)
    ensures sel == BestHeaderRow(close, pages)
  {
    sel := NoSelection;
    var p := 0;
    while p < |pages|
      invariant 0 <= p <= |pages|
      invariant SelectFrom(RowScore(close), sel, DocumentRows(pages[p..])) == BestHeaderRow(close, pages)
    {
      assert pages[p..][0] == pages[p] && pages[p..][1..] == pages[p + 1..];
      SelectFromAppend(RowScore(close), sel, PageRows(pages[p]), DocumentRows(pages[p + 1..]));
      if pages[p].Some? && |pages[p].value| > 0 {
        sel := ScanPage(close, pages[p].value, sel);
      }
      p := p + 1;
    }
  }

  /**
   * The frame of the row-based strategy: built from the kept row as header
   * (made unique) and the rows below it, only when that row's score is at
   * least 10; None when no row qualifies or pandas refuses the rows.
   */
  function PrimaryFrame(close: Closeness, pages: seq<Page>): Option<Frame> {
    var sel := BestHeaderRow(close, pages);
    if sel.best.Some? && sel.score >= 10 then
      match BuildFrame(UniqueLabels(RowOf(sel.best.value)), RowsBelow(sel.best.value))
      case Ok(f) => Some(f)
      case Err(_) => None
    else None
  }

  /** A document whose rows all score below 10 gets nothing from the row-based strategy. */
  lemma PrimaryNeedsTen(close: Closeness, pages: seq<Page>)
    requires forall i :: 0 <= i < |DocumentRows(pages)| ==> CandidateScore(close, DocumentRows(pages)[i]) < 10
    ensures PrimaryFrame(close, pages).None?
  {
    BestHeaderRowIsFirstMaximum(close, pages);
  }

  // ---------------------------------------------------------------- fallback

  /**
   * What the fallback makes of one row: a frame when the row is non-empty,
   * has at least 6 resolving cells and the rows below it build a non-empty
   * frame under its made-unique labels; None otherwise.
   */
  function FallbackFrameAt(close: Closeness, c: Candidate): Option<Frame> {
    var row := RowOf(c);
    if |row| == 0 || Score(close, row) < 6 then None
    else
      match BuildFrame(UniqueLabels(row), RowsBelow(c))
      case Err(_) => None
      case Ok(f) => if IsEmpty(f) then None else Some(f)
  }

  /** What the fallback makes of each candidate row, as a function the search is written over. */
  function RowFallback(close: Closeness): Candidate -> Option<Frame> {
    c => FallbackFrameAt(close, c)
  }

  /** The first row, in the given order, that the fallback accepts. */
  function FirstFallback(accept: Candidate -> Option<Frame>, cs: seq<Candidate>): Option<Frame> {
    if |cs| == 0 then None
    else if accept(cs[0]).Some? then accept(cs[0])
    else FirstFallback(accept, cs[1..])
  }

  lemma {:induction false} FirstFallbackAppend(accept: Candidate -> Option<Frame>, a: seq<Candidate>, b: seq<Candidate>)
    ensures FirstFallback(accept, a + b) == if FirstFallback(accept, a).Some? then FirstFallback(accept, a) else FirstFallback(accept, b)
  {
    if |a| == 0 {
      assert a + b == b;
    } else {
      ConcatTail(a, b);
      FirstFallbackAppend(accept, a[1..], b);
    }
  }

  /** The fallback returns the frame of the first accepted row, and nothing only when no row is accepted. */
  lemma {:induction false} FallbackIsFirstHit(accept: Candidate -> Option<Frame>, cs: seq<Candidate>)
    ensures FirstFallback(accept, cs).None? <==> forall i :: 0 <= i < |cs| ==> accept(cs[i]).None?
    ensures FirstFallback(accept, cs).Some? ==>
      exists i :: 0 <= i < |cs| && FirstFallback(accept, cs) == accept(cs[i])
        && forall j :: 0 <= j < i ==> accept(cs[j]).None?
  {
    if |cs| > 0 {
      var rest := cs[1..];
      FallbackIsFirstHit(accept, rest);
      if accept(cs[0]).None? {
        assert FirstFallback(accept, cs) == FirstFallback(accept, rest);
        if FirstFallback(accept, rest).Some? {
          var i :| 0 <= i < |rest| && FirstFallback(accept, rest) == accept(rest[i])
            && forall j :: 0 <= j < i ==> accept(rest[j]).None?;
          assert rest[i] == cs[i + 1];
          forall j | 0 <= j < i + 1 ensures accept(cs[j]).None? {
            if j > 0 { assert cs[j] == rest[j - 1]; }
          }
        } else {
          forall j | 0 <= j < |cs| ensures accept(cs[j]).None? {
            if j > 0 { assert cs[j] == rest[j - 1]; }
          }
        }
      }
    }
  }

  /** Lifts the remaining-work equation of the fallback loops one level. */
  function OrElse(a: Option<Frame>, b: Option<Frame>): Option<Frame> {
    if a.Some? then a else b
  }

  /** The fallback at row r of a table, one row unfolded. */
  lemma FallbackStep(close: Closeness, table: Table, r: nat)
    requires r < |table|
    ensures FirstFallback(RowFallback(close), RowsFrom(table, r))
      == OrElse(FallbackFrameAt(close, Candidate(table, r)), FirstFallback(RowFallback(close), RowsFrom(table, r + 1)))
    ensures RowOf(Candidate(table, r)) == table[r] && RowsBelow(Candidate(table, r)) == table[r + 1..]
  {
    assert RowsFrom(table, r)[1..] == RowsFrom(table, r + 1);
  }

  /** The fallback's inner loop over the rows of one table; Some at the first accepted row. */
  method FallbackInTable(close: Closeness, table: Table) returns (found: Option<Frame>)
    ensures found == FirstFallback(RowFallback(close), RowsFrom(table, 0))
  {
    var r := 0;
    while r < |table|
      invariant 0 <= r <= |table|
      invariant FirstFallback(RowFallback(close), RowsFrom(table, r)) == FirstFallback(RowFallback(close), RowsFrom(table, 0))
    {
      FallbackStep(close, table, r);
      var row := table[r];
      if |row| > 0 {
        var hits := Score(close, row);
        if hits >= 6 {
          var header := MakeUnique(row);
          var built := BuildFrame(header, table[r + 1..]);
          if built.Ok? && !IsEmpty(built.value) {
            return Some(built.value);
          }
        }
      }
      r := r + 1;
    }
    return None;
  }

  /** The fallback's middle loop over the tables of one page. */
  method FallbackInPage(close: Closeness, tables: seq<Table>) returns (found: Option<Frame>)
    ensures found == FirstFallback(RowFallback(close), TablesRows(tables))
  {
    var t := 0;
    while t < |tables|
      invariant 0 <= t <= |tables|
      invariant FirstFallback(RowFallback(close), TablesRows(tables[t..])) == FirstFallback(RowFallback(close), TablesRows(tables))
    {
      assert tables[t..][0] == tables[t] && tables[t..][1..] == tables[t + 1..];
      FirstFallbackAppend(RowFallback(close), RowsFrom(tables[t], 0), TablesRows(tables[t + 1..]));
      found := FallbackInTable(close, tables[t]);
      if found.Some? {
        return found;
      }
      t := t + 1;
    }
    return None;
  }

  /**
   * The fallback: pages, tables and rows in order, returning the frame of the
   * first row it accepts; pages whose extraction raised are skipped, and so
   * are candidate rows whose data pandas refuses.
   */
  method FallbackSearch(close: Closeness, pages: seq<Page>) returns (result: Option<Frame>)
    ensures result == FirstFallback(RowFallback(close), DocumentRows(pages))
  {
    var p := 0;
    while p < |pages|
      invariant 0 <= p <= |pages|
      invariant FirstFallback(RowFallback(close), DocumentRows(pages[p..])) == FirstFallback(RowFallback(close), DocumentRows(pages))
    {
      assert pages[p..][0] == pages[p] && pages[p..][1..] == pages[p + 1..];
      FirstFallbackAppend(RowFallback(close), PageRows(pages[p]), DocumentRows(pages[p + 1..]));
      if pages[p].Some? && |pages[p].value| > 0 {
        result := FallbackInPage(close, pages[p].value);
        if result.Some? {
          return result;
        }
      }
      p := p + 1;
    }
    return None;
  }

  // ---------------------------------------------------------------- the whole extraction

  /** What extract_data_from_pdf returns: the row-based frame if there is one, else the fallback's; None is pd.DataFrame(). */
  function ExtractionResult(close: Closeness, pages: seq<Page>): Option<Frame> {
    OrElse(PrimaryFrame(close, pages), FirstFallback(RowFallback(close), DocumentRows(pages)))
  }

  /** The kept row is a row of its table. */
  lemma BestRowInTable(close: Closeness, pages: seq<Page>)
    ensures BestHeaderRow(close, pages).best.Some? ==>
      BestHeaderRow(close, pages).best.value.index < |BestHeaderRow(close, pages).best.value.table|
  {
    var sel := BestHeaderRow(close, pages);
    BestHeaderRowIsFirstMaximum(close, pages);
    if sel.best.Some? {
      var i :| 0 <= i < |DocumentRows(pages)| && sel.best == Some(DocumentRows(pages)[i]);
      assert DocumentRows(pages)[i] in DocumentRows(pages);
    }
  }

  /** extract_data_from_pdf over the pages' extracted tables. */
  method ExtractData(close: Closeness, pages: seq<Page>) returns (result: Option<Frame>)
    ensures result == ExtractionResult(close, pages)
  {
    var sel := FindHeaderRow(close, pages);
    BestRowInTable(close, pages);
    if sel.best.Some? && |sel.best.value.table| > 0 && sel.score >= 10 {
      var table, row := sel.best.value.table, sel.best.value.index;
      var fromHeader := table[row..];
      assert fromHeader[0] == RowOf(sel.best.value) && fromHeader[1..] == RowsBelow(sel.best.value);
      var header := MakeUnique(fromHeader[0]);
      var built := BuildFrame(header, fromHeader[1..]);
      if built.Ok? {
        return Some(built.value);
      }
    }
    result := FallbackSearch(close, pages);
  }
}
