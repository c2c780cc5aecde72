/**
 * `update_spreadsheet` as the loops it is made of: every recognised sheet
 * of a workbook is reconciled in place with the post-processed records.
 * Each method is proved to leave the sheet as module Reconcile specifies.
 */
module Spreadsheet {
  import opened Builtins
  import opened Refine
  import opened Reconcile

  /** The header search of app.py:169-173: the first row naming a required column. */
  method FindHeader(rows: seq<Row>, required: seq<string>) returns (header: Option<nat>)
    ensures header == HeaderRow(rows, required)
    ensures header.Some? ==> header.value < |rows| && NamesRequiredColumn(rows[header.value], required)
  {
    for i := 0 to |rows|
      invariant forall k :: 0 <= k < i ==> !NamesRequiredColumn(rows[k], required)
    {
      if NamesRequiredColumn(rows[i], required) {
        return Some(i);
      }
    }
    return None;
  }

  /** The scoring loop of app.py:188-192 over the candidates, in order. */
  method FindBestMatch(key: string, cands: seq<Candidate>, score: Scorer) returns (best: Best)
    ensures best == BestAmong(key, cands, |cands|, score)
  {
    best := Best(None, 0);
    for k := 0 to |cands|
      invariant best == BestAmong(key, cands, k, score)
    {
      var s := score(key, cands[k].key);
      if s > best.score {
        best := Best(Some(k), s);
      }
    }
  }

  /** One worksheet: its title and the values of its rows, top to bottom. */
  class Sheet {
    const title: string
    var rows: seq<Row>

    constructor (title: string, rows: seq<Row>)
      ensures this.title == title && this.rows == rows
    {
      this.title := title;
      this.rows := rows;
    }

    /**
     * The column loop of app.py:196-223 on row `r` for the matched record:
     * writes cell by cell and reports whether anything was written.
     */
    method WriteRow(r: nat, details: Dict, cols: seq<string>, colIdx: map<string, nat>) returns (wrote: bool)
      requires r < |rows| && BudgetIsUsable(details)
      modifies this
      ensures rows == old(rows)[r := WriteColumns(old(rows)[r], details, cols, colIdx).0]
      ensures wrote == WriteColumns(old(rows)[r], details, cols, colIdx).1
    {
      wrote := false;
      for i := 0 to |cols|
        invariant rows == old(rows)[r := WriteColumns(old(rows)[r], details, cols[..i], colIdx).0]
        invariant wrote == WriteColumns(old(rows)[r], details, cols[..i], colIdx).1
      {
        assert cols[..i + 1][..i] == cols[..i];
        var col := cols[i];
        if col in colIdx {
          var j := colIdx[col];
          var cell := CellAt(rows[r], j);
          var v := Get(details, col, Str(""));
          if col == "BUDGET" && v.Str? && '-' in v.s {
            var mid := RangeMidpoint(v.s);
            v := Str(Display(Num(mid.value)));
          }
          if col == "BUDGET" && (cell == Some(Str("0")) || !CellTruthy(cell)) {
          } else if col == "LEAD" && v != Str("Unknown") && v != Str("") {
          } else if !Blank(cell) && CellEquals(cell, v) {
            continue;
          }
          rows := rows[r := SetCell(rows[r], j, Some(v))];
          wrote := true;
        }
      }
      assert cols[..|cols|] == cols;
    }

    /**
     * The body of the row loop of app.py:183-223 on row `r`: a row with a
     * task description is matched and, on an accepted match, written;
     * returns the candidate key recorded in `updated_tasks`, if any.
     */
    method ScanRow(r: nat, cands: seq<Candidate>, cols: seq<string>, colIdx: map<string, nat>, score: Scorer)
      returns (recorded: Option<string>)
      requires r < |rows| && TaskCellIsText(rows[r]) && CandidatesUsable(cands)
      modifies this
      ensures rows == old(rows)[r := RowOutcome(old(rows)[r], cands, cols, colIdx, score).0]
      ensures recorded == RowOutcome(old(rows)[r], cands, cols, colIdx, score).1
    {
      recorded := None;
      var cell := CellAt(rows[r], 0);
      if CellTruthy(cell) {
        var key := Lower(Strip(cell.value.s));
        var best := FindBestMatch(key, cands, score);
        if best.index.Some? && cands[best.index.value].key != "" && best.score >= MatchThreshold {
          var cand := cands[best.index.value];
          var wrote := WriteRow(r, cand.details, cols, colIdx);
          if wrote {
            recorded := Some(cand.key);
          }
        }
      }
    }

    /**
     * The row loop of app.py:182-223 below header row `h`: every row is
     * scanned in turn; returns `updated_tasks`.
     */
    method UpdateRows(h: nat, cands: seq<Candidate>, cols: seq<string>, colIdx: map<string, nat>, score: Scorer)
      returns (updated: set<string>)
      requires h < |rows| && RowsUsableBelow(rows, h) && CandidatesUsable(cands)
      modifies this
      ensures rows == ScannedRows(old(rows), h, cands, cols, colIdx, score)
      ensures updated == Recorded(old(rows), h, cands, cols, colIdx, score, |old(rows)|)
    {
      updated := {};
      ghost var orig := rows;
      var r := h + 1;
      while r < |rows|
        invariant h + 1 <= r <= |rows| == |orig|
        invariant rows == ScannedUpTo(orig, h, cands, cols, colIdx, score, r)
        invariant updated == Recorded(orig, h, cands, cols, colIdx, score, r)
        decreases |rows| - r
      {
        ScannedUpToRows(orig, h, cands, cols, colIdx, score, r);
        assert rows[r] == orig[r];
        ScanStep(orig, h, cands, cols, colIdx, score, r);
        var recorded := ScanRow(r, cands, cols, colIdx, score);
        assert rows == ScannedUpTo(orig, h, cands, cols, colIdx, score, r + 1);
        if recorded.Some? {
          updated := updated + {recorded.value};
        }
        assert updated == Recorded(orig, h, cands, cols, colIdx, score, r + 1);
        r := r + 1;
      }
    }

    /** The fallback loop of app.py:226-229: appends every candidate no write recorded. */
    method AppendMissing(cands: seq<Candidate>, updated: set<string>, cols: seq<string>)
      modifies this
      ensures rows == old(rows) + FallbackRows(cands, updated, cols)
    {
      for k := 0 to |cands|
        invariant rows == old(rows) + FallbackRows(cands[..k], updated, cols)
      {
        assert cands[..k + 1][..k] == cands[..k];
        var c := cands[k];
        if c.key !in updated {
          rows := rows + [NewRow(c, cols)];
        }
      }
      assert cands[..|cands|] == cands;
    }

    /** One iteration of the sheet loop of app.py:147-229 on this sheet. */
    method Reconcile(data: seq<Entry>, score: Scorer)
      requires SheetInputUsable(title, rows, data)
      modifies this
      ensures rows == ReconcileSheet(title, old(rows), data, score)
    {
      var name := SheetKey(title);
      var schema := SheetColumns(name);
      if schema.None? {
        return;
      }
      var cols := schema.value;
      var cands := Relevant(data, name);
      if cands == [] {
        return;
      }
      var header := FindHeader(rows, cols);
      if header.None? {
        return;
      }
      var h := header.value;
      var colIdx := ColumnIndices(rows[h], cols);
      var updated := UpdateRows(h, cands, cols, colIdx, score);
      AppendMissing(cands, updated, cols);
    }
  }

  /** An opened workbook: its worksheets in `workbook.sheetnames` order. */
  class Workbook {
    const sheets: seq<Sheet>

    constructor (sheets: seq<Sheet>)
      requires forall i, j :: 0 <= i < j < |sheets| ==> sheets[i] != sheets[j]
      ensures this.sheets == sheets && Valid()
    {
      this.sheets := sheets;
    }

    /** Distinct sheet names denote distinct worksheets. */
    predicate Valid()
      reads this
    {
      forall i, j :: 0 <= i < j < |sheets| ==> sheets[i] != sheets[j]
    }

    /**
     * `update_spreadsheet` before the workbook is saved: every sheet is
     * reconciled on its own, and only the sheets' rows change.
     */
    method Update(data: seq<Entry>, score: Scorer)
      requires Valid()
      requires forall i :: 0 <= i < |sheets| ==> SheetInputUsable(sheets[i].title, sheets[i].rows, data)
      modifies sheets
      ensures forall i :: 0 <= i < |sheets| ==>
        sheets[i].rows == ReconcileSheet(sheets[i].title, old(sheets[i].rows), data, score)
    {
      for i := 0 to |sheets|
        invariant forall k :: 0 <= k < i ==>
          sheets[k].rows == ReconcileSheet(sheets[k].title, old(sheets[k].rows), data, score)
        invariant forall k :: i <= k < |sheets| ==> sheets[k].rows == old(sheets[k].rows)
      {
        var sheet := sheets[i];
        ghost var before := sheet.rows;
        sheet.Reconcile(data, score);
        assert sheet.rows == ReconcileSheet(sheet.title, before, data, score);
        assert forall k :: 0 <= k < |sheets| && k != i ==> sheets[k] != sheet;
      }
    }
  }
}
