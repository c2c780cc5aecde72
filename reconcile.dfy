/**
 * What one pass of `update_spreadsheet` does to one sheet, as functions of
 * the sheet's rows and the post-processed task records: sheet selection,
 * grouping of the candidates, header discovery, fuzzy row matching, the
 * per-column overwrite policy and the fallback rows.  The loops that carry
 * it out in place are in module Spreadsheet.
 */
module Reconcile {
  import opened Builtins
  import opened Refine

  /** A sheet row as openpyxl yields it; cells past the end of the sequence are empty. */
  type Row = seq<Cell>

  /** `fuzz.partial_ratio`, a similarity from 0 to 100; its computation is not modelled. */
  type Score = s: int | 0 <= s <= 100
  type Scorer = (string, string) -> Score

  /** A row is updated only from a candidate scoring at least this much. */
  const MatchThreshold: int := 40

  // ================================================================ schema

  const FullColumns: seq<string> := ["BUDGET", "PROPOSED", "COMMENT", "DWG REF", "LEAD"]

  /** The fixed table `sheet_columns`: the required columns of each recognised sheet. */
  function SheetColumns(name: string): (r: Option<seq<string>>)
    ensures r.Some? ==> |r.value| > 0 && forall c :: c in r.value ==> c in FullColumns || c == "PROPOSAL"
  {
    if name == "GC" then Some(["BUDGET", "PROPOSED", "LEAD"])
    else if name == "PLUMBING" then Some(["PROPOSAL"])
    else if name in {"ELECTRICAL", "MILLWORK", "SCOPE OF WORK", "PERMITS"} then Some(FullColumns)
    else None
  }

  /** `sheet.upper().strip()`: no ASCII lower-case letter and no whitespace at either end. */
  function SheetKey(title: string): (r: string)
    ensures |r| <= |title|
    ensures forall k :: 0 <= k < |r| ==> !('a' <= r[k] <= 'z')
    ensures |r| > 0 ==> !IsSpace(r[0]) && !IsSpace(r[|r| - 1])
  {
    var u := Upper(title);
    StripShape(u);
    Strip(u)
  }

  predicate Distinct(xs: seq<string>) {
    forall i, j :: 0 <= i < j < |xs| ==> xs[i] != xs[j]
  }

  lemma SchemaColumnsDistinct(name: string)
    requires SheetColumns(name).Some?
    ensures Distinct(SheetColumns(name).value)
  {
  }

  // ================================================================ candidates of one sheet

  /** The source calls `.upper()` on `data.get("CATEGORY", "")`, so a category must be text. */
  predicate CategoryIsText(details: Dict) {
    "CATEGORY" in details ==> details["CATEGORY"].Str?
  }

  /** BUDGET can be searched for "-", and a BUDGET with a dash splits into two integers. */
  predicate BudgetIsUsable(details: Dict) {
    "BUDGET" in details ==>
      details["BUDGET"].Str? && ('-' in details["BUDGET"].s ==> RangeMidpoint(details["BUDGET"].s).Some?)
  }

  /** The records `update_spreadsheet` can process without raising. */
  predicate EntriesUsable(data: seq<Entry>) {
    forall i :: 0 <= i < |data| ==> CategoryIsText(data[i].details) && BudgetIsUsable(data[i].details)
  }

  /** `data.get("CATEGORY", "").upper()`: upper-cased but not stripped. */
  function CategoryKey(details: Dict): (r: string)
    requires CategoryIsText(details)
    ensures |r| == |Get(details, "CATEGORY", Str("")).s|
    ensures forall k :: 0 <= k < |r| ==> !('a' <= r[k] <= 'z')
  {
    Upper(Get(details, "CATEGORY", Str("")).s)
  }

  predicate Chosen(e: Entry, sheet: string)
    requires CategoryIsText(e.details)
  {
    CategoryKey(e.details) == sheet
  }

  /** A candidate of one sheet: the lower-cased task description and its record. */
  datatype Candidate = Candidate(key: string, details: Dict)

  predicate DistinctKeys(cs: seq<Candidate>) {
    forall i, j :: 0 <= i < j < |cs| ==> cs[i].key != cs[j].key
  }

  function KeyIndex(cs: seq<Candidate>, key: string): (r: Option<nat>)
    ensures r.Some? ==> r.value < |cs| && cs[r.value].key == key
    ensures r.None? ==> forall k :: 0 <= k < |cs| ==> cs[k].key != key
  {
    if cs == [] then None
    else if cs[|cs| - 1].key == key then Some(|cs| - 1)
    else KeyIndex(cs[..|cs| - 1], key)
  }

  /** `d[key] = details` on an insertion-ordered dict: a known key keeps its place. */
  function Upsert(cs: seq<Candidate>, key: string, details: Dict): (r: seq<Candidate>)
    ensures KeySet(r) == KeySet(cs) + {key}
    ensures |r| == if key in KeySet(cs) then |cs| else |cs| + 1
  {
    match KeyIndex(cs, key)
    case Some(p) =>
      var r := cs[p := Candidate(key, details)];
      assert forall k :: 0 <= k < |r| ==> r[k].key == cs[k].key;
      assert KeySet(r) == KeySet(cs);
      r
    case None =>
      var r := cs + [Candidate(key, details)];
      assert r[..|cs|] == cs;
      KeySetSnoc(r);
      r
  }

  /** Upserting touches no candidate of another key, and keeps the keys distinct. */
  lemma UpsertKeepsOthers(cs: seq<Candidate>, key: string, details: Dict)
    ensures forall k :: 0 <= k < |Upsert(cs, key, details)| && Upsert(cs, key, details)[k].key != key ==>
      k < |cs| && Upsert(cs, key, details)[k] == cs[k]
    ensures DistinctKeys(cs) ==> DistinctKeys(Upsert(cs, key, details))
  {
  }

  /** `relevant_tasks`: the records whose upper-cased category is `sheet`, keyed by `task.lower()`. */
  function Relevant(data: seq<Entry>, sheet: string): (r: seq<Candidate>)
    requires EntriesUsable(data)
    ensures CandidatesUsable(r)
    ensures |r| <= |data|
  {
    if data == [] then []
    else
      var prev := Relevant(data[..|data| - 1], sheet);
      var e := data[|data| - 1];
      if Chosen(e, sheet) then Upsert(prev, Lower(e.task), e.details) else prev
  }

  /** The last record of `sheet` whose lower-cased description is `key`. */
  function LastWith(data: seq<Entry>, sheet: string, key: string): (r: Option<nat>)
    requires EntriesUsable(data)
    ensures r.Some? ==> r.value < |data| && Chosen(data[r.value], sheet) && Lower(data[r.value].task) == key
    ensures r.Some? ==> forall i :: r.value < i < |data| ==> !(Chosen(data[i], sheet) && Lower(data[i].task) == key)
    ensures r.None? ==> forall i :: 0 <= i < |data| ==> !(Chosen(data[i], sheet) && Lower(data[i].task) == key)
  {
    if data == [] then None
    else
      var e := data[|data| - 1];
      if Chosen(e, sheet) && Lower(e.task) == key then Some(|data| - 1)
      else LastWith(data[..|data| - 1], sheet, key)
  }

  /** The first record of `sheet` whose lower-cased description is `key`. */
  function FirstWith(data: seq<Entry>, sheet: string, key: string): (r: Option<nat>)
    requires EntriesUsable(data)
    ensures r.Some? ==> r.value < |data| && Chosen(data[r.value], sheet) && Lower(data[r.value].task) == key
    ensures r.Some? ==> forall i :: 0 <= i < r.value ==> !(Chosen(data[i], sheet) && Lower(data[i].task) == key)
    ensures r.None? ==> forall i :: 0 <= i < |data| ==> !(Chosen(data[i], sheet) && Lower(data[i].task) == key)
  {
    if data == [] then None
    else
      var first := FirstWith(data[..|data| - 1], sheet, key);
      var e := data[|data| - 1];
      if first.Some? then first
      else if Chosen(e, sheet) && Lower(e.task) == key then Some(|data| - 1)
      else None
  }

  /** Each candidate holds the last record of its description. */
  predicate HoldsLast(data: seq<Entry>, sheet: string, r: seq<Candidate>)
    requires EntriesUsable(data)
  {
    forall p :: 0 <= p < |r| ==>
      LastWith(data, sheet, r[p].key).Some? && FirstWith(data, sheet, r[p].key).Some?
      && r[p].details == data[LastWith(data, sheet, r[p].key).value].details
  }

  /** Every record of the sheet has a candidate. */
  predicate Covers(data: seq<Entry>, sheet: string, r: seq<Candidate>)
    requires EntriesUsable(data)
  {
    forall i :: 0 <= i < |data| && Chosen(data[i], sheet) ==>
      exists p :: 0 <= p < |r| && r[p].key == Lower(data[i].task)
  }

  /** Candidates follow the order in which their descriptions first occur. */
  predicate FirstOrdered(data: seq<Entry>, sheet: string, r: seq<Candidate>)
    requires EntriesUsable(data)
  {
    forall p, q :: 0 <= p < q < |r| ==>
      FirstWith(data, sheet, r[p].key).Some? && FirstWith(data, sheet, r[q].key).Some?
      && FirstWith(data, sheet, r[p].key).value < FirstWith(data, sheet, r[q].key).value
  }

  /**
   * `r` is the grouping of app.py:155-158 of `data`: one candidate per
   * distinct lower-cased description among the sheet's records, holding the
   * LAST such record, placed in the order of the FIRST such records.
   */
  predicate GroupedFrom(data: seq<Entry>, sheet: string, r: seq<Candidate>)
    requires EntriesUsable(data)
  {
    DistinctKeys(r) && HoldsLast(data, sheet, r) && Covers(data, sheet, r) && FirstOrdered(data, sheet, r)
  }

  /** Extending the records by one that is not of `sheet` changes no first or last occurrence. */
  lemma OccurrencesSkip(data: seq<Entry>, sheet: string)
    requires EntriesUsable(data) && data != []
    requires !Chosen(data[|data| - 1], sheet)
    ensures forall k :: LastWith(data, sheet, k) == LastWith(data[..|data| - 1], sheet, k)
    ensures forall k :: FirstWith(data, sheet, k) == FirstWith(data[..|data| - 1], sheet, k)
  {
  }

  /** Extending the records by one of `sheet` makes it the last occurrence of its description. */
  lemma OccurrencesChosen(data: seq<Entry>, sheet: string)
    requires EntriesUsable(data) && data != []
    requires Chosen(data[|data| - 1], sheet)
    ensures forall k :: k != Lower(data[|data| - 1].task) ==> LastWith(data, sheet, k) == LastWith(data[..|data| - 1], sheet, k)
    ensures LastWith(data, sheet, Lower(data[|data| - 1].task)) == Some(|data| - 1)
    ensures forall k :: k != Lower(data[|data| - 1].task) ==> FirstWith(data, sheet, k) == FirstWith(data[..|data| - 1], sheet, k)
    ensures FirstWith(data, sheet, Lower(data[|data| - 1].task)) ==
      if FirstWith(data[..|data| - 1], sheet, Lower(data[|data| - 1].task)).Some?
      then FirstWith(data[..|data| - 1], sheet, Lower(data[|data| - 1].task)) else Some(|data| - 1)
  {
  }

  /** A record of another sheet leaves the grouping as it was. */
  lemma GroupedSkip(data: seq<Entry>, sheet: string, prev: seq<Candidate>)
    requires EntriesUsable(data) && data != [] && EntriesUsable(data[..|data| - 1])
    requires !Chosen(data[|data| - 1], sheet)
    requires GroupedFrom(data[..|data| - 1], sheet, prev)
    ensures GroupedFrom(data, sheet, prev)
  {
    var pre := data[..|data| - 1];
    OccurrencesSkip(data, sheet);
    assert forall i :: 0 <= i < |pre| ==> pre[i] == data[i];
  }

  lemma ReplaceHoldsLast(data: seq<Entry>, sheet: string, prev: seq<Candidate>, p0: nat)
    requires EntriesUsable(data) && data != [] && EntriesUsable(data[..|data| - 1])
    requires Chosen(data[|data| - 1], sheet)
    requires DistinctKeys(prev) && HoldsLast(data[..|data| - 1], sheet, prev)
    requires p0 < |prev| && prev[p0].key == Lower(data[|data| - 1].task)
    ensures HoldsLast(data, sheet, prev[p0 := Candidate(prev[p0].key, data[|data| - 1].details)])
  {
    var n := |data| - 1;
    var pre := data[..n];
    var r := prev[p0 := Candidate(prev[p0].key, data[n].details)];
    OccurrencesChosen(data, sheet);
    forall p | 0 <= p < |r|
      ensures LastWith(data, sheet, r[p].key).Some? && FirstWith(data, sheet, r[p].key).Some?
      ensures r[p].details == data[LastWith(data, sheet, r[p].key).value].details
    {
      if p != p0 {
        var v := LastWith(pre, sheet, prev[p].key).value;
        assert pre[v] == data[v];
      }
    }
  }

  lemma ReplaceCovers(data: seq<Entry>, sheet: string, prev: seq<Candidate>, p0: nat)
    requires EntriesUsable(data) && data != [] && EntriesUsable(data[..|data| - 1])
    requires Covers(data[..|data| - 1], sheet, prev)
    requires p0 < |prev| && prev[p0].key == Lower(data[|data| - 1].task)
    ensures Covers(data, sheet, prev[p0 := Candidate(prev[p0].key, data[|data| - 1].details)])
  {
    var n := |data| - 1;
    var pre := data[..n];
    var r := prev[p0 := Candidate(prev[p0].key, data[n].details)];
    forall i | 0 <= i < |data| && Chosen(data[i], sheet)
      ensures exists p :: 0 <= p < |r| && r[p].key == Lower(data[i].task)
    {
      if i == n {
        assert r[p0].key == Lower(data[i].task);
      } else {
        assert pre[i] == data[i];
        var p :| 0 <= p < |prev| && prev[p].key == Lower(pre[i].task);
        assert r[p].key == Lower(data[i].task);
      }
    }
  }

  lemma ReplaceOrdered(data: seq<Entry>, sheet: string, prev: seq<Candidate>, p0: nat)
    requires EntriesUsable(data) && data != [] && EntriesUsable(data[..|data| - 1])
    requires Chosen(data[|data| - 1], sheet)
    requires HoldsLast(data[..|data| - 1], sheet, prev) && FirstOrdered(data[..|data| - 1], sheet, prev)
    requires p0 < |prev| && prev[p0].key == Lower(data[|data| - 1].task)
    ensures FirstOrdered(data, sheet, prev[p0 := Candidate(prev[p0].key, data[|data| - 1].details)])
  {
    var pre := data[..|data| - 1];
    var r := prev[p0 := Candidate(prev[p0].key, data[|data| - 1].details)];
    OccurrencesChosen(data, sheet);
    assert FirstWith(pre, sheet, prev[p0].key).Some?;
    assert forall p :: 0 <= p < |r| ==> FirstWith(data, sheet, r[p].key) == FirstWith(pre, sheet, prev[p].key);
  }

  /** A repeated description replaces the record of its candidate, in place. */
  lemma GroupedReplace(data: seq<Entry>, sheet: string, prev: seq<Candidate>, p0: nat)
    requires EntriesUsable(data) && data != [] && EntriesUsable(data[..|data| - 1])
    requires Chosen(data[|data| - 1], sheet)
    requires GroupedFrom(data[..|data| - 1], sheet, prev)
    requires p0 < |prev| && prev[p0].key == Lower(data[|data| - 1].task)
    ensures GroupedFrom(data, sheet, prev[p0 := Candidate(prev[p0].key, data[|data| - 1].details)])
  {
    ReplaceHoldsLast(data, sheet, prev, p0);
    ReplaceCovers(data, sheet, prev, p0);
    ReplaceOrdered(data, sheet, prev, p0);
  }

  lemma AppendHoldsLast(data: seq<Entry>, sheet: string, prev: seq<Candidate>)
    requires EntriesUsable(data) && data != [] && EntriesUsable(data[..|data| - 1])
    requires Chosen(data[|data| - 1], sheet)
    requires HoldsLast(data[..|data| - 1], sheet, prev)
    requires forall k :: 0 <= k < |prev| ==> prev[k].key != Lower(data[|data| - 1].task)
    ensures HoldsLast(data, sheet, prev + [Candidate(Lower(data[|data| - 1].task), data[|data| - 1].details)])
  {
    var n := |data| - 1;
    var pre := data[..n];
    var r := prev + [Candidate(Lower(data[n].task), data[n].details)];
    OccurrencesChosen(data, sheet);
    forall p | 0 <= p < |r|
      ensures LastWith(data, sheet, r[p].key).Some? && FirstWith(data, sheet, r[p].key).Some?
      ensures r[p].details == data[LastWith(data, sheet, r[p].key).value].details
    {
      if p < |prev| {
        assert r[p] == prev[p];
        var v := LastWith(pre, sheet, prev[p].key).value;
        assert pre[v] == data[v];
      }
    }
  }

  lemma AppendCovers(data: seq<Entry>, sheet: string, prev: seq<Candidate>)
    requires EntriesUsable(data) && data != [] && EntriesUsable(data[..|data| - 1])
    requires Covers(data[..|data| - 1], sheet, prev)
    ensures Covers(data, sheet, prev + [Candidate(Lower(data[|data| - 1].task), data[|data| - 1].details)])
  {
    var n := |data| - 1;
    var pre := data[..n];
    var r := prev + [Candidate(Lower(data[n].task), data[n].details)];
    forall i | 0 <= i < |data| && Chosen(data[i], sheet)
      ensures exists p :: 0 <= p < |r| && r[p].key == Lower(data[i].task)
    {
      if i == n {
        assert r[|prev|].key == Lower(data[i].task);
      } else {
        assert pre[i] == data[i];
        var p :| 0 <= p < |prev| && prev[p].key == Lower(pre[i].task);
        assert r[p].key == Lower(data[i].task);
      }
    }
  }

  /** A description that no candidate holds has not yet occurred among the sheet's records. */
  lemma UncoveredUnseen(data: seq<Entry>, sheet: string, prev: seq<Candidate>, key: string)
    requires EntriesUsable(data) && Covers(data, sheet, prev)
    requires forall k :: 0 <= k < |prev| ==> prev[k].key != key
    ensures FirstWith(data, sheet, key).None?
  {
    forall i | 0 <= i < |data| && Chosen(data[i], sheet)
      ensures Lower(data[i].task) != key
    {
      var p :| 0 <= p < |prev| && prev[p].key == Lower(data[i].task);
    }
  }

  lemma AppendOrdered(data: seq<Entry>, sheet: string, prev: seq<Candidate>)
    requires EntriesUsable(data) && data != [] && EntriesUsable(data[..|data| - 1])
    requires Chosen(data[|data| - 1], sheet)
    requires HoldsLast(data[..|data| - 1], sheet, prev) && Covers(data[..|data| - 1], sheet, prev)
    requires FirstOrdered(data[..|data| - 1], sheet, prev)
    requires forall k :: 0 <= k < |prev| ==> prev[k].key != Lower(data[|data| - 1].task)
    ensures FirstOrdered(data, sheet, prev + [Candidate(Lower(data[|data| - 1].task), data[|data| - 1].details)])
  {
    var n := |data| - 1;
    var pre := data[..n];
    var ke := Lower(data[n].task);
    var r := prev + [Candidate(ke, data[n].details)];
    UncoveredUnseen(pre, sheet, prev, ke);
    assert FirstWith(data, sheet, ke) == Some(n);
    forall p | 0 <= p < |prev|
      ensures r[p] == prev[p] && FirstWith(data, sheet, r[p].key) == FirstWith(pre, sheet, prev[p].key)
    {
    }
    forall p, q | 0 <= p < q < |r|
      ensures FirstWith(data, sheet, r[p].key).Some? && FirstWith(data, sheet, r[q].key).Some?
      ensures FirstWith(data, sheet, r[p].key).value < FirstWith(data, sheet, r[q].key).value
    {
      if q == |prev| {
        assert r[q].key == ke;
        assert FirstWith(pre, sheet, prev[p].key).value < n;
      } else {
        assert r[q] == prev[q];
      }
    }
  }

  /** A new description is appended as a new candidate. */
  lemma GroupedAppend(data: seq<Entry>, sheet: string, prev: seq<Candidate>)
    requires EntriesUsable(data) && data != [] && EntriesUsable(data[..|data| - 1])
    requires Chosen(data[|data| - 1], sheet)
    requires GroupedFrom(data[..|data| - 1], sheet, prev)
    requires forall k :: 0 <= k < |prev| ==> prev[k].key != Lower(data[|data| - 1].task)
    ensures GroupedFrom(data, sheet, prev + [Candidate(Lower(data[|data| - 1].task), data[|data| - 1].details)])
  {
    AppendHoldsLast(data, sheet, prev);
    AppendCovers(data, sheet, prev);
    AppendOrdered(data, sheet, prev);
  }

  /** One more record keeps `relevant_tasks` the grouping of the records seen so far. */
  lemma RelevantStep(data: seq<Entry>, sheet: string)
    requires EntriesUsable(data) && data != [] && EntriesUsable(data[..|data| - 1])
    requires GroupedFrom(data[..|data| - 1], sheet, Relevant(data[..|data| - 1], sheet))
    ensures GroupedFrom(data, sheet, Relevant(data, sheet))
  {
    var e := data[|data| - 1];
    var prev := Relevant(data[..|data| - 1], sheet);
    var key := Lower(e.task);
    if !Chosen(e, sheet) {
      GroupedSkip(data, sheet, prev);
    } else {
      assert Relevant(data, sheet) == Upsert(prev, key, e.details);
      match KeyIndex(prev, key)
      case Some(p0) =>
        assert Upsert(prev, key, e.details) == prev[p0 := Candidate(prev[p0].key, e.details)];
        GroupedReplace(data, sheet, prev, p0);
      case None =>
        assert Upsert(prev, key, e.details) == prev + [Candidate(key, e.details)];
        GroupedAppend(data, sheet, prev);
    }
  }

  /** `relevant_tasks` is the grouping of the records of `sheet`. */
  lemma {:induction false} RelevantSpec(data: seq<Entry>, sheet: string)
    requires EntriesUsable(data)
    ensures GroupedFrom(data, sheet, Relevant(data, sheet))
    decreases |data|
  {
    if data != [] {
      var pre := data[..|data| - 1];
      assert EntriesUsable(pre) by { assert forall i :: 0 <= i < |pre| ==> pre[i] == data[i]; }
      RelevantSpec(pre, sheet);
      RelevantStep(data, sheet);
    }
  }

  /**
   * A record whose upper-cased category is not `sheet` plays no part in that
   * sheet's candidates: dropping it changes nothing.
   */
  lemma {:induction false} RelevantIgnoresOtherCategories(a: seq<Entry>, e: Entry, b: seq<Entry>, sheet: string)
    requires EntriesUsable(a + [e] + b) && CategoryIsText(e.details)
    requires !Chosen(e, sheet)
    ensures EntriesUsable(a + b)
    ensures Relevant(a + [e] + b, sheet) == Relevant(a + b, sheet)
    decreases |b|
  {
    var whole := a + [e] + b;
    assert forall i :: 0 <= i < |a + b| ==> (a + b)[i] == whole[if i < |a| then i else i + 1];
    if b == [] {
      assert whole[..|whole| - 1] == a;
      assert a + b == a;
    } else {
      var b' := b[..|b| - 1];
      var x := b[|b| - 1];
      assert whole[..|whole| - 1] == a + [e] + b';
      assert (a + b)[..|a + b| - 1] == a + b';
      assert whole[|whole| - 1] == x && (a + b)[|a + b| - 1] == x;
      assert EntriesUsable(a + [e] + b') by {
        assert forall i :: 0 <= i < |a + [e] + b'| ==> (a + [e] + b')[i] == whole[i];
      }
      RelevantIgnoresOtherCategories(a, e, b', sheet);
    }
  }

  // ================================================================ header

  /** `any(col in row for col in required_columns)` */
  predicate NamesRequiredColumn(row: Row, required: seq<string>) {
    exists k :: 0 <= k < |required| && Some(Str(required[k])) in row
  }

  /** The first row from `i` on that names a required column. */
  function HeaderFrom(rows: seq<Row>, required: seq<string>, i: nat): (r: Option<nat>)
    requires i <= |rows|
    ensures r.Some? ==> i <= r.value < |rows| && NamesRequiredColumn(rows[r.value], required)
    ensures r.Some? ==> forall k :: i <= k < r.value ==> !NamesRequiredColumn(rows[k], required)
    ensures r.None? ==> forall k :: i <= k < |rows| ==> !NamesRequiredColumn(rows[k], required)
    decreases |rows| - i
  {
    if i == |rows| then None
    else if NamesRequiredColumn(rows[i], required) then Some(i)
    else HeaderFrom(rows, required, i + 1)
  }

  /** The header row: the first row of the sheet that names a required column. */
  function HeaderRow(rows: seq<Row>, required: seq<string>): Option<nat> {
    HeaderFrom(rows, required, 0)
  }

  /** `row.index(x)` */
  function FirstIndex(row: Row, x: Cell): (k: nat)
    requires x in row
    ensures k < |row| && row[k] == x && forall m :: 0 <= m < k ==> row[m] != x
  {
    if row[0] == x then 0
    else
      assert x in row[1..] by {
        var j :| 0 <= j < |row| && row[j] == x;
        assert row[1..][j - 1] == x;
      }
      1 + FirstIndex(row[1..], x)
  }

  /**
   * `column_indices`: exactly the required columns the header names, each
   * mapped to the first position where the header names it.
   */
  function ColumnIndices(header: Row, required: seq<string>): (m: map<string, nat>)
    ensures forall c :: c in m <==> c in required && Some(Str(c)) in header
    ensures forall c :: c in m ==>
      m[c] < |header| && header[m[c]] == Some(Str(c)) && forall k :: 0 <= k < m[c] ==> header[k] != Some(Str(c))
  {
    map c | c in required && Some(Str(c)) in header :: FirstIndex(header, Some(Str(c)))
  }

  // ================================================================ cells

  function CellAt(row: Row, j: nat): Cell {
    if j < |row| then row[j] else None
  }

  /** `row[j].value = v`, growing a short row with empty cells. */
  function SetCell(row: Row, j: nat, v: Cell): (r: Row)
    ensures |r| == if j < |row| then |row| else j + 1
    ensures forall k: nat :: CellAt(r, k) == if k == j then v else CellAt(row, k)
  {
    if j < |row| then row[j := v]
    else row + seq(j - |row|, _ => None) + [v]
  }

  /** The source calls `.strip()` on a truthy first cell, so it must be text. */
  predicate TaskCellIsText(row: Row) {
    CellTruthy(CellAt(row, 0)) ==> CellAt(row, 0).value.Str?
  }

  /** The rows the row loop reads, those below header row `h`, can be processed. */
  predicate RowsUsableBelow(rows: seq<Row>, h: nat) {
    forall r :: h < r < |rows| ==> TaskCellIsText(rows[r])
  }

  /**
   * `task_cell.value.strip().lower()` when the first cell is truthy: no
   * longer than the cell's text, without ASCII capitals and without
   * whitespace at either end.
   */
  function TaskKey(row: Row): (r: Option<string>)
    requires TaskCellIsText(row)
    ensures r.Some? <==> CellTruthy(CellAt(row, 0))
    ensures r.Some? ==> |r.value| <= |CellAt(row, 0).value.s|
    ensures r.Some? ==> forall k :: 0 <= k < |r.value| ==> !('A' <= r.value[k] <= 'Z')
    ensures r.Some? && |r.value| > 0 ==> !IsSpace(r.value[0]) && !IsSpace(r.value[|r.value| - 1])
  {
    var c := CellAt(row, 0);
    if CellTruthy(c) then
      StripShape(c.value.s);
      Some(Lower(Strip(c.value.s)))
    else None
  }

  // ================================================================ matching

  /** `best_match, best_score`: the index of the best candidate so far and its score. */
  datatype Best = Best(index: Option<nat>, score: int)

  /**
   * The best of the first `n` candidates for a row: strictly the highest
   * score, the earliest candidate on a tie, and no candidate at all when
   * every score is 0.
   */
  function BestAmong(key: string, cands: seq<Candidate>, n: nat, score: Scorer): (b: Best)
    requires n <= |cands|
    ensures b.index.None? ==> b.score == 0 && forall k :: 0 <= k < n ==> score(key, cands[k].key) == 0
    ensures b.index.Some? ==> b.index.value < n && b.score == score(key, cands[b.index.value].key) && b.score > 0
    ensures forall k :: 0 <= k < n ==> score(key, cands[k].key) <= b.score
    ensures b.index.Some? ==> forall k :: 0 <= k < b.index.value ==> score(key, cands[k].key) < b.score
  {
    if n == 0 then Best(None, 0)
    else
      var prev := BestAmong(key, cands, n - 1, score);
      var s := score(key, cands[n - 1].key);
      if s > prev.score then Best(Some(n - 1), s) else prev
  }

  /** `if best_match and best_score >= 40`: an empty description never matches. */
  predicate Accepted(b: Best, cands: seq<Candidate>) {
    b.index.Some? && b.index.value < |cands| && cands[b.index.value].key != "" && b.score >= MatchThreshold
  }

  /** A best score of exactly 40 is accepted and one of 39 is not. */
  lemma MatchThresholdBoundary(cands: seq<Candidate>, i: nat)
    requires i < |cands| && cands[i].key != ""
    ensures Accepted(Best(Some(i), 40), cands)
    ensures !Accepted(Best(Some(i), 39), cands)
  {
  }

  // ================================================================ column writes

  /** `a, b = s.split("-")` and `(int(a) + int(b)) // 2`; `None` where Python raises. */
  function RangeMidpoint(s: string): (r: Option<int>)
    requires '-' in s
    ensures r.Some? ==> r.value >= 0
  {
    match SplitDash(s)
    case None => None
    case Some(parts) =>
      match (ParseInt(parts.0), ParseInt(parts.1))
      case (Some(a), Some(b)) => Some((a + b) / 2)
      case _ => None
  }

  /** `new_value`: the record's value for the column, a BUDGET range collapsed to its midpoint. */
  function NewValue(col: string, details: Dict): (r: Value)
    requires BudgetIsUsable(details)
    ensures col != "BUDGET" ==> r == Get(details, col, Str(""))
    ensures col == "BUDGET" ==> r.Str? && '-' !in r.s
  {
    var v := Get(details, col, Str(""));
    if col == "BUDGET" && v.Str? && '-' in v.s then
      var mid := RangeMidpoint(v.s).value;
      NumeralHasNoDash(mid);
      Str(Display(Num(mid)))
    else v
  }

  /** `cell.value in [None, "", "0"]` */
  predicate Blank(c: Cell) {
    c == None || c == Some(Str("")) || c == Some(Str("0"))
  }

  /** The if/elif chain of app.py:208-219 reaches its `continue`, so the cell is not written. */
  predicate SkipsWrite(col: string, current: Cell, v: Value) {
    && !(col == "BUDGET" && (current == Some(Str("0")) || !CellTruthy(current)))
    && !(col == "LEAD" && v != Str("Unknown") && v != Str(""))
    && !Blank(current) && CellEquals(current, v)
  }

  /** The located columns among `cols` have distinct positions. */
  predicate PositionsDistinct(cols: seq<string>, colIdx: map<string, nat>) {
    forall c1, c2 :: c1 in cols && c2 in cols && c1 in colIdx && c2 in colIdx && c1 != c2 ==> colIdx[c1] != colIdx[c2]
  }

  /** Some located column of `cols` sits at position `k`. */
  predicate Located(cols: seq<string>, colIdx: map<string, nat>, k: nat) {
    exists c :: c in cols && c in colIdx && colIdx[c] == k
  }

  /** The column loop of app.py:196-223 over one matched row: the new row, and whether any cell was written. */
  function WriteColumns(row: Row, details: Dict, cols: seq<string>, colIdx: map<string, nat>): (r: (Row, bool))
    requires BudgetIsUsable(details)
    ensures !r.1 ==> r.0 == row
    decreases |cols|
  {
    if cols == [] then (row, false)
    else
      var done := WriteColumns(row, details, cols[..|cols| - 1], colIdx);
      var c := cols[|cols| - 1];
      if c !in colIdx then done
      else
        var v := NewValue(c, details);
        if SkipsWrite(c, CellAt(done.0, colIdx[c]), v) then done
        else (SetCell(done.0, colIdx[c], Some(v)), true)
  }

  /**
   * After an accepted match every located column holds the new value,
   * except where the old cell was non-blank and already equal to it; no
   * other cell changes; the candidate is recorded exactly when some cell
   * was written.
   */
  lemma {:induction false} WriteColumnsSpec(row: Row, details: Dict, cols: seq<string>, colIdx: map<string, nat>)
    requires BudgetIsUsable(details)
    requires Distinct(cols) && PositionsDistinct(cols, colIdx)
    ensures forall c :: c in cols && c in colIdx ==>
      CellAt(WriteColumns(row, details, cols, colIdx).0, colIdx[c]) ==
        if SkipsWrite(c, CellAt(row, colIdx[c]), NewValue(c, details)) then CellAt(row, colIdx[c]) else Some(NewValue(c, details))
    ensures forall c :: c in cols && c in colIdx ==>
      CellEquals(CellAt(WriteColumns(row, details, cols, colIdx).0, colIdx[c]), NewValue(c, details))
    ensures forall k: nat :: !Located(cols, colIdx, k) ==> CellAt(WriteColumns(row, details, cols, colIdx).0, k) == CellAt(row, k)
    ensures WriteColumns(row, details, cols, colIdx).1 <==>
      exists c :: c in cols && c in colIdx && !SkipsWrite(c, CellAt(row, colIdx[c]), NewValue(c, details))
    decreases |cols|
  {
    if cols != [] {
      var init := cols[..|cols| - 1];
      var c := cols[|cols| - 1];
      assert forall x :: x in cols <==> x in init || x == c;
      assert c !in init;
      assert PositionsDistinct(init, colIdx);
      WriteColumnsSpec(row, details, init, colIdx);
      var done := WriteColumns(row, details, init, colIdx);
      if c in colIdx {
        assert !Located(init, colIdx, colIdx[c]);
        assert CellAt(done.0, colIdx[c]) == CellAt(row, colIdx[c]);
        forall k: nat | !Located(cols, colIdx, k)
          ensures !Located(init, colIdx, k) && k != colIdx[c]
        {
        }
      } else {
        forall k: nat | !Located(cols, colIdx, k)
          ensures !Located(init, colIdx, k)
        {
        }
      }
    }
  }

  /** The overwrite policy in words: a write is skipped only when the old cell is non-blank and already equal. */
  lemma SkipOnlyWhenAlreadyEqual(col: string, current: Cell, v: Value)
    ensures SkipsWrite(col, current, v) ==> !Blank(current) && CellEquals(current, v)
    ensures !Blank(current) && CellEquals(current, v) && col != "LEAD" && CellTruthy(current) ==> SkipsWrite(col, current, v)
    ensures col == "LEAD" && v != Str("Unknown") && v != Str("") ==> !SkipsWrite(col, current, v)
    ensures col == "BUDGET" && !CellEquals(current, v) ==> !SkipsWrite(col, current, v)
  {
  }

  /** A new LEAD of "Unknown" replaces a name already in the sheet. */
  lemma UnknownLeadOverwritesName(name: string)
    requires name != "Unknown"
    ensures !SkipsWrite("LEAD", Some(Str(name)), Str("Unknown"))
  {
  }

  // ================================================================ one row, one sheet

  /** Every candidate's BUDGET can be processed. */
  predicate CandidatesUsable(cands: seq<Candidate>) {
    forall k :: 0 <= k < |cands| ==> BudgetIsUsable(cands[k].details)
  }

  /** One iteration of the row loop (app.py:183-223): the new row and the key it records, if any. */
  function RowOutcome(row: Row, cands: seq<Candidate>, cols: seq<string>, colIdx: map<string, nat>, score: Scorer): (r: (Row, Option<string>))
    requires TaskCellIsText(row) && CandidatesUsable(cands)
    ensures r.1.None? ==> r.0 == row
    ensures r.1.Some? ==> r.1.value != ""
  {
    match TaskKey(row)
    case None => (row, None)
    case Some(key) =>
      var best := BestAmong(key, cands, |cands|, score);
      if Accepted(best, cands) then
        var cand := cands[best.index.value];
        var w := WriteColumns(row, cand.details, cols, colIdx);
        (w.0, if w.1 then Some(cand.key) else None)
      else (row, None)
  }

  /** The key a row records is the key of a candidate. */
  lemma RowOutcomeKey(row: Row, cands: seq<Candidate>, cols: seq<string>, colIdx: map<string, nat>, score: Scorer)
    requires TaskCellIsText(row) && CandidatesUsable(cands)
    ensures RowOutcome(row, cands, cols, colIdx, score).1.Some? ==> RowOutcome(row, cands, cols, colIdx, score).1.value in KeySet(cands)
  {
    if RowOutcome(row, cands, cols, colIdx, score).1.Some? {
      var best := BestAmong(TaskKey(row).value, cands, |cands|, score);
      assert RowOutcome(row, cands, cols, colIdx, score).1.value == cands[best.index.value].key;
    }
  }

  /** The rows once the row loop has scanned the rows below header `h` and before row `n`. */
  function ScannedUpTo(rows: seq<Row>, h: nat, cands: seq<Candidate>, cols: seq<string>, colIdx: map<string, nat>, score: Scorer, n: nat): (r: seq<Row>)
    requires n <= |rows| && RowsUsableBelow(rows, h) && CandidatesUsable(cands)
    ensures |r| == |rows|
    decreases n
  {
    if n <= h + 1 then rows
    else ScannedUpTo(rows, h, cands, cols, colIdx, score, n - 1)[n - 1 := RowOutcome(rows[n - 1], cands, cols, colIdx, score).0]
  }

  /** Scanning up to row `n` replaces exactly the rows between the header and `n` by their outcomes. */
  lemma {:induction false} ScannedUpToRows(rows: seq<Row>, h: nat, cands: seq<Candidate>, cols: seq<string>, colIdx: map<string, nat>, score: Scorer, n: nat)
    requires n <= |rows| && RowsUsableBelow(rows, h) && CandidatesUsable(cands)
    ensures forall k :: 0 <= k < |rows| && (k <= h || n <= k) ==> ScannedUpTo(rows, h, cands, cols, colIdx, score, n)[k] == rows[k]
    ensures forall k :: h < k < n ==> ScannedUpTo(rows, h, cands, cols, colIdx, score, n)[k] == RowOutcome(rows[k], cands, cols, colIdx, score).0
    decreases n
  {
    if n > h + 1 {
      ScannedUpToRows(rows, h, cands, cols, colIdx, score, n - 1);
    }
  }

  /** The rows after the row loop: every row below the header replaced by its outcome. */
  function ScannedRows(rows: seq<Row>, h: nat, cands: seq<Candidate>, cols: seq<string>, colIdx: map<string, nat>, score: Scorer): (r: seq<Row>)
    requires RowsUsableBelow(rows, h) && CandidatesUsable(cands)
    ensures |r| == |rows|
  {
    ScannedUpTo(rows, h, cands, cols, colIdx, score, |rows|)
  }

  /** `updated_tasks` after the rows below the header and before row `n` were scanned. */
  function Recorded(rows: seq<Row>, h: nat, cands: seq<Candidate>, cols: seq<string>, colIdx: map<string, nat>, score: Scorer, n: nat): set<string>
    requires n <= |rows| && RowsUsableBelow(rows, h) && CandidatesUsable(cands)
  {
    if n <= h + 1 then {}
    else
      var earlier := Recorded(rows, h, cands, cols, colIdx, score, n - 1);
      match RowOutcome(rows[n - 1], cands, cols, colIdx, score).1
      case Some(key) => earlier + {key}
      case None => earlier
  }

  /** Scanning one more row below the header replaces that row by its outcome and records its key. */
  lemma ScanStep(rows: seq<Row>, h: nat, cands: seq<Candidate>, cols: seq<string>, colIdx: map<string, nat>, score: Scorer, n: nat)
    requires h < n < |rows| && RowsUsableBelow(rows, h) && CandidatesUsable(cands)
    ensures ScannedUpTo(rows, h, cands, cols, colIdx, score, n + 1) ==
      ScannedUpTo(rows, h, cands, cols, colIdx, score, n)[n := RowOutcome(rows[n], cands, cols, colIdx, score).0]
    ensures Recorded(rows, h, cands, cols, colIdx, score, n + 1) ==
      Recorded(rows, h, cands, cols, colIdx, score, n) +
        if RowOutcome(rows[n], cands, cols, colIdx, score).1.Some? then {RowOutcome(rows[n], cands, cols, colIdx, score).1.value} else {}
  {
  }

  /** `updated_tasks` only ever holds the non-empty keys of candidates. */
  lemma {:induction false} RecordedKeys(rows: seq<Row>, h: nat, cands: seq<Candidate>, cols: seq<string>, colIdx: map<string, nat>, score: Scorer, n: nat)
    requires n <= |rows| && RowsUsableBelow(rows, h) && CandidatesUsable(cands)
    ensures Recorded(rows, h, cands, cols, colIdx, score, n) <= KeySet(cands)
    ensures "" !in Recorded(rows, h, cands, cols, colIdx, score, n)
    decreases n
  {
    if n > h + 1 {
      RecordedKeys(rows, h, cands, cols, colIdx, score, n - 1);
      RowOutcomeKey(rows[n - 1], cands, cols, colIdx, score);
    }
  }

  /** The fallback row of app.py:228: the key, then the raw field values in schema order. */
  function NewRow(c: Candidate, cols: seq<string>): (r: Row)
    ensures |r| == |cols| + 1 && r[0] == Some(Str(c.key))
    ensures forall k :: 0 <= k < |r| ==> r[k].Some?
  {
    [Some(Str(c.key))] + seq(|cols|, k requires 0 <= k < |cols| => Some(Get(c.details, cols[k], Str(""))))
  }

  /** The rows the fallback loop (app.py:226-229) appends. */
  function FallbackRows(cands: seq<Candidate>, recorded: set<string>, cols: seq<string>): (r: seq<Row>)
    ensures |r| <= |cands|
  {
    if cands == [] then []
    else
      var c := cands[|cands| - 1];
      FallbackRows(cands[..|cands| - 1], recorded, cols) + if c.key in recorded then [] else [NewRow(c, cols)]
  }

  function KeySet(cands: seq<Candidate>): set<string> {
    set k | 0 <= k < |cands| :: cands[k].key
  }

  lemma KeySetSnoc(cands: seq<Candidate>)
    requires cands != []
    ensures KeySet(cands) == KeySet(cands[..|cands| - 1]) + {cands[|cands| - 1].key}
  {
    var pre := cands[..|cands| - 1];
    forall x | x in KeySet(cands) ensures x in KeySet(pre) + {cands[|cands| - 1].key} {
      var k :| 0 <= k < |cands| && cands[k].key == x;
      if k < |pre| { assert pre[k].key == x; }
    }
    forall x | x in KeySet(pre) ensures x in KeySet(cands) {
      var k :| 0 <= k < |pre| && pre[k].key == x;
      assert cands[k].key == x;
    }
  }

  /** With distinct keys, the last candidate's key is not among the earlier ones. */
  lemma LastKeyFresh(cands: seq<Candidate>)
    requires cands != [] && DistinctKeys(cands)
    ensures cands[|cands| - 1].key !in KeySet(cands[..|cands| - 1])
  {
    var pre := cands[..|cands| - 1];
    assert forall k :: 0 <= k < |pre| ==> pre[k] == cands[k];
  }

  /** The first cells of the candidates' fallback rows. */
  function KeyCells(cands: seq<Candidate>): set<Cell> {
    set k | 0 <= k < |cands| :: Some(Str(cands[k].key))
  }

  /** Every appended row starts with the key of a candidate. */
  lemma {:induction false} FallbackFirstCells(cands: seq<Candidate>, recorded: set<string>, cols: seq<string>)
    ensures forall q :: 0 <= q < |FallbackRows(cands, recorded, cols)| ==> CellAt(FallbackRows(cands, recorded, cols)[q], 0) in KeyCells(cands)
    decreases |cands|
  {
    if cands == [] {
      assert FallbackRows(cands, recorded, cols) == [];
    } else {
      var n := |cands| - 1;
      var pre := cands[..n];
      FallbackFirstCells(pre, recorded, cols);
      assert forall k :: 0 <= k < |pre| ==> pre[k] == cands[k];
      assert KeyCells(pre) <= KeyCells(cands);
      assert Some(Str(cands[n].key)) in KeyCells(cands);
    }
  }

  /** The sheet grows by one row per distinct candidate key missing from `recorded`. */
  lemma {:induction false} FallbackCount(cands: seq<Candidate>, recorded: set<string>, cols: seq<string>)
    requires DistinctKeys(cands)
    ensures |FallbackRows(cands, recorded, cols)| == |KeySet(cands) - recorded|
    decreases |cands|
  {
    if cands != [] {
      var n := |cands| - 1;
      var pre := cands[..n];
      var c := cands[n];
      FallbackCount(pre, recorded, cols);
      KeySetSnoc(cands);
      LastKeyFresh(cands);
      assert FallbackRows(cands, recorded, cols) ==
        FallbackRows(pre, recorded, cols) + if c.key in recorded then [] else [NewRow(c, cols)];
      if c.key !in recorded {
        assert c.key !in KeySet(pre) - recorded;
        assert KeySet(cands) - recorded == (KeySet(pre) - recorded) + {c.key};
        assert |KeySet(cands) - recorded| == |KeySet(pre) - recorded| + 1;
      } else {
        assert KeySet(cands) - recorded == KeySet(pre) - recorded;
      }
    }
  }

  /** Every appended row is the fallback row of a candidate missing from `recorded`. */
  lemma {:induction false} FallbackSound(cands: seq<Candidate>, recorded: set<string>, cols: seq<string>)
    ensures forall q :: 0 <= q < |FallbackRows(cands, recorded, cols)| ==>
      exists p :: 0 <= p < |cands| && cands[p].key !in recorded && FallbackRows(cands, recorded, cols)[q] == NewRow(cands[p], cols)
    decreases |cands|
  {
    if cands == [] {
      assert FallbackRows(cands, recorded, cols) == [];
    } else {
      var n := |cands| - 1;
      var pre := cands[..n];
      FallbackSound(pre, recorded, cols);
      var before := FallbackRows(pre, recorded, cols);
      var all := FallbackRows(cands, recorded, cols);
      forall q | 0 <= q < |all|
        ensures exists p :: 0 <= p < |cands| && cands[p].key !in recorded && all[q] == NewRow(cands[p], cols)
      {
        if q < |before| {
          var p :| 0 <= p < |pre| && pre[p].key !in recorded && before[q] == NewRow(pre[p], cols);
          assert cands[p] == pre[p];
        } else {
          assert all == before + [NewRow(cands[n], cols)] && cands[n].key !in recorded;
          assert all[q] == NewRow(cands[n], cols);
        }
      }
    }
  }

  /** Every candidate missing from `recorded` gets its fallback row. */
  lemma {:induction false} FallbackComplete(cands: seq<Candidate>, recorded: set<string>, cols: seq<string>)
    ensures forall p :: 0 <= p < |cands| && cands[p].key !in recorded ==> NewRow(cands[p], cols) in FallbackRows(cands, recorded, cols)
    decreases |cands|
  {
    if cands != [] {
      var n := |cands| - 1;
      var pre := cands[..n];
      FallbackComplete(pre, recorded, cols);
      forall p | 0 <= p < n && cands[p].key !in recorded
        ensures NewRow(cands[p], cols) in FallbackRows(cands, recorded, cols)
      {
        assert pre[p] == cands[p];
      }
    }
  }

  /** No two appended rows carry the same key. */
  lemma {:induction false} FallbackDistinct(cands: seq<Candidate>, recorded: set<string>, cols: seq<string>)
    requires DistinctKeys(cands)
    ensures forall q1, q2 :: 0 <= q1 < q2 < |FallbackRows(cands, recorded, cols)| ==>
      CellAt(FallbackRows(cands, recorded, cols)[q1], 0) != CellAt(FallbackRows(cands, recorded, cols)[q2], 0)
    decreases |cands|
  {
    if cands != [] {
      var n := |cands| - 1;
      var pre := cands[..n];
      var c := cands[n];
      assert DistinctKeys(pre);
      FallbackDistinct(pre, recorded, cols);
      FallbackFirstCells(pre, recorded, cols);
      LastKeyFresh(cands);
      assert Some(Str(c.key)) !in KeyCells(pre);
    }
  }

  /**
   * Every candidate missing from `updated_tasks` is appended exactly once,
   * and nothing else is: the sheet grows by the number of such candidates.
   */
  lemma FallbackSpec(cands: seq<Candidate>, recorded: set<string>, cols: seq<string>)
    requires DistinctKeys(cands)
    ensures |FallbackRows(cands, recorded, cols)| == |KeySet(cands) - recorded|
    ensures forall p :: 0 <= p < |cands| && cands[p].key !in recorded ==> NewRow(cands[p], cols) in FallbackRows(cands, recorded, cols)
    ensures forall q :: 0 <= q < |FallbackRows(cands, recorded, cols)| ==>
      exists p :: 0 <= p < |cands| && cands[p].key !in recorded && FallbackRows(cands, recorded, cols)[q] == NewRow(cands[p], cols)
    ensures forall q1, q2 :: 0 <= q1 < q2 < |FallbackRows(cands, recorded, cols)| ==>
      CellAt(FallbackRows(cands, recorded, cols)[q1], 0) != CellAt(FallbackRows(cands, recorded, cols)[q2], 0)
  {
    FallbackCount(cands, recorded, cols);
    FallbackComplete(cands, recorded, cols);
    FallbackSound(cands, recorded, cols);
    FallbackDistinct(cands, recorded, cols);
  }

  /**
   * What the pass over the sheet titled `title` needs in order not to raise:
   * nothing when the sheet is not recognised; otherwise records it can
   * group and, once it has candidates and a header row, rows below the
   * header that it can read.
   */
  predicate SheetInputUsable(title: string, rows: seq<Row>, data: seq<Entry>) {
    var name := SheetKey(title);
    SheetColumns(name).Some? ==>
      && EntriesUsable(data)
      && (Relevant(data, name) != [] && HeaderRow(rows, SheetColumns(name).value).Some? ==>
            RowsUsableBelow(rows, HeaderRow(rows, SheetColumns(name).value).value))
  }

  /** The rows of the sheet titled `title` after its pass of app.py:147-229. */
  function ReconcileSheet(title: string, rows: seq<Row>, data: seq<Entry>, score: Scorer): (r: seq<Row>)
    requires SheetInputUsable(title, rows, data)
    ensures |rows| <= |r| <= |rows| + |data|
  {
    var name := SheetKey(title);
    match SheetColumns(name)
    case None => rows
    case Some(cols) =>
      var cands := Relevant(data, name);
      if cands == [] then rows
      else
        match HeaderRow(rows, cols)
        case None => rows
        case Some(h) =>
          var colIdx := ColumnIndices(rows[h], cols);
          ScannedRows(rows, h, cands, cols, colIdx, score)
            + FallbackRows(cands, Recorded(rows, h, cands, cols, colIdx, score, |rows|), cols)
  }

  // ================================================================ properties of a whole pass

  /** An unrecognised sheet, a sheet without records and a sheet without a header row are left as they are. */
  lemma SkippedSheetUnchanged(title: string, rows: seq<Row>, data: seq<Entry>, score: Scorer)
    requires SheetInputUsable(title, rows, data)
    requires || SheetColumns(SheetKey(title)).None?
             || Relevant(data, SheetKey(title)) == []
             || HeaderRow(rows, SheetColumns(SheetKey(title)).value).None?
    ensures ReconcileSheet(title, rows, data, score) == rows
  {
  }

  /**
   * The row loop followed by the fallback loop: the rows up to the header
   * are kept; a row below it changes only through an accepted match; the
   * sheet grows by exactly one row per candidate that no write recorded, and
   * every appended row is such a candidate's fallback row.
   */
  lemma {:induction false} PassShape(rows: seq<Row>, h: nat, cands: seq<Candidate>, cols: seq<string>, colIdx: map<string, nat>, score: Scorer)
    requires RowsUsableBelow(rows, h) && CandidatesUsable(cands) && DistinctKeys(cands)
    ensures
      var recorded := Recorded(rows, h, cands, cols, colIdx, score, |rows|);
      var result := ScannedRows(rows, h, cands, cols, colIdx, score) + FallbackRows(cands, recorded, cols);
      && |result| == |rows| + |KeySet(cands) - recorded|
      && (forall r :: 0 <= r <= h && r < |rows| ==> result[r] == rows[r])
      && (forall r :: h < r < |rows| ==>
            result[r] == if TaskKey(rows[r]).Some? && Accepted(BestAmong(TaskKey(rows[r]).value, cands, |cands|, score), cands)
                         then WriteColumns(rows[r], cands[BestAmong(TaskKey(rows[r]).value, cands, |cands|, score).index.value].details, cols, colIdx).0
                         else rows[r])
      && (forall p :: 0 <= p < |cands| && cands[p].key !in recorded ==> NewRow(cands[p], cols) in result[|rows|..])
      && (forall q :: |rows| <= q < |result| ==>
            exists p :: 0 <= p < |cands| && cands[p].key !in recorded && result[q] == NewRow(cands[p], cols))
  {
    var recorded := Recorded(rows, h, cands, cols, colIdx, score, |rows|);
    var scanned := ScannedRows(rows, h, cands, cols, colIdx, score);
    var fallback := FallbackRows(cands, recorded, cols);
    var result := scanned + fallback;
    ScannedUpToRows(rows, h, cands, cols, colIdx, score, |rows|);
    forall r | 0 <= r <= h && r < |rows|
      ensures result[r] == rows[r]
    {
      assert result[r] == scanned[r];
    }
    forall r | h < r < |rows|
      ensures result[r] == RowOutcome(rows[r], cands, cols, colIdx, score).0
    {
      assert result[r] == scanned[r];
    }
    FallbackSpec(cands, recorded, cols);
    assert result[|rows|..] == fallback;
    forall q | |rows| <= q < |result|
      ensures exists p :: 0 <= p < |cands| && cands[p].key !in recorded && result[q] == NewRow(cands[p], cols)
    {
      assert result[q] == fallback[q - |rows|];
    }
  }

  /** `PassShape` for the sheet pass itself, once a sheet is recognised, has candidates and has a header row. */
  lemma ReconcileSheetShape(title: string, rows: seq<Row>, data: seq<Entry>, score: Scorer)
    requires SheetInputUsable(title, rows, data)
    requires SheetColumns(SheetKey(title)).Some?
    requires Relevant(data, SheetKey(title)) != []
    requires HeaderRow(rows, SheetColumns(SheetKey(title)).value).Some?
    ensures
      var cols := SheetColumns(SheetKey(title)).value;
      var cands := Relevant(data, SheetKey(title));
      var h := HeaderRow(rows, cols).value;
      var colIdx := ColumnIndices(rows[h], cols);
      && DistinctKeys(cands)
      && ReconcileSheet(title, rows, data, score) ==
           ScannedRows(rows, h, cands, cols, colIdx, score) + FallbackRows(cands, Recorded(rows, h, cands, cols, colIdx, score, |rows|), cols)
  {
    RelevantSpec(data, SheetKey(title));
  }

  /** The columns a header locates sit at distinct positions. */
  lemma ColumnPositionsDistinct(header: Row, required: seq<string>)
    ensures PositionsDistinct(required, ColumnIndices(header, required))
  {
  }

  /**
   * In a sheet's pass, a row below the header that is matched to a
   * candidate follows the overwrite policy column by column, and every cell
   * outside the located columns keeps its value.
   */
  lemma MatchedRowFollowsPolicy(title: string, rows: seq<Row>, data: seq<Entry>, score: Scorer, r: nat)
    requires SheetInputUsable(title, rows, data)
    requires SheetColumns(SheetKey(title)).Some?
    requires Relevant(data, SheetKey(title)) != []
    requires HeaderRow(rows, SheetColumns(SheetKey(title)).value).Some?
    requires HeaderRow(rows, SheetColumns(SheetKey(title)).value).value < r < |rows|
    requires TaskKey(rows[r]).Some?
    requires
      var cands := Relevant(data, SheetKey(title));
      Accepted(BestAmong(TaskKey(rows[r]).value, cands, |cands|, score), cands)
    ensures
      var cols := SheetColumns(SheetKey(title)).value;
      var cands := Relevant(data, SheetKey(title));
      var colIdx := ColumnIndices(rows[HeaderRow(rows, cols).value], cols);
      var cand := cands[BestAmong(TaskKey(rows[r]).value, cands, |cands|, score).index.value];
      var after := ReconcileSheet(title, rows, data, score)[r];
      && (forall c :: c in cols && c in colIdx ==>
            CellAt(after, colIdx[c]) ==
              if SkipsWrite(c, CellAt(rows[r], colIdx[c]), NewValue(c, cand.details)) then CellAt(rows[r], colIdx[c])
              else Some(NewValue(c, cand.details)))
      && (forall k: nat :: !Located(cols, colIdx, k) ==> CellAt(after, k) == CellAt(rows[r], k))
  {
    var name := SheetKey(title);
    var cols := SheetColumns(name).value;
    var cands := Relevant(data, name);
    var h := HeaderRow(rows, cols).value;
    var colIdx := ColumnIndices(rows[h], cols);
    var cand := cands[BestAmong(TaskKey(rows[r]).value, cands, |cands|, score).index.value];
    ReconcileSheetShape(title, rows, data, score);
    PassShape(rows, h, cands, cols, colIdx, score);
    SchemaColumnsDistinct(name);
    ColumnPositionsDistinct(rows[h], cols);
    WriteColumnsSpec(rows[r], cand.details, cols, colIdx);
  }

  /** A record whose category names another sheet has no effect on this sheet's pass. */
  lemma OtherCategoryIgnored(title: string, rows: seq<Row>, a: seq<Entry>, e: Entry, b: seq<Entry>, score: Scorer)
    requires SheetInputUsable(title, rows, a + [e] + b) && CategoryIsText(e.details)
    requires CategoryKey(e.details) != SheetKey(title)
    ensures SheetInputUsable(title, rows, a + b)
    ensures ReconcileSheet(title, rows, a + [e] + b, score) == ReconcileSheet(title, rows, a + b, score)
  {
    if SheetColumns(SheetKey(title)).Some? {
      RelevantIgnoresOtherCategories(a, e, b, SheetKey(title));
    }
  }

  /** A record whose category is no recognised sheet never reaches any sheet. */
  lemma UnknownCategoryDropped(title: string, rows: seq<Row>, a: seq<Entry>, e: Entry, b: seq<Entry>, score: Scorer)
    requires SheetInputUsable(title, rows, a + [e] + b) && CategoryIsText(e.details)
    requires SheetColumns(CategoryKey(e.details)).None?
    ensures SheetInputUsable(title, rows, a + b)
    ensures ReconcileSheet(title, rows, a + [e] + b, score) == ReconcileSheet(title, rows, a + b, score)
  {
    if SheetColumns(SheetKey(title)).Some? {
      OtherCategoryIgnored(title, rows, a, e, b, score);
    }
  }

  /** `s.split("-")` on two dash-free parts joined by a dash gives back the parts. */
  lemma SplitJoined(x: string, y: string)
    requires '-' !in x && '-' !in y
    ensures '-' in x + "-" + y
    ensures SplitDash(x + "-" + y) == Some((x, y))
  {
    var s := x + "-" + y;
    assert s[|x|] == '-';
    var parts := SplitDash(s).value;
    SplitUnique(parts.0, parts.1, x, y);
  }

  /** The midpoint of a range whose two parts parse as `a` and `b`. */
  lemma MidpointOfParts(x: string, y: string, a: int, b: int)
    requires '-' !in x && '-' !in y
    requires ParseInt(x) == Some(a) && ParseInt(y) == Some(b)
    ensures '-' in x + "-" + y
    ensures RangeMidpoint(x + "-" + y) == Some((a + b) / 2)
  {
    SplitJoined(x, y);
    var s := x + "-" + y;
    var parts := SplitDash(s).value;
    assert parts.0 == x && parts.1 == y;
    assert (ParseInt(parts.0), ParseInt(parts.1)) == (Some(a), Some(b));
  }

  /** A numeral has no dash. */
  lemma NumeralHasNoDash(n: nat)
    ensures '-' !in DecimalString(n)
  {
    var x := DecimalString(n);
    assert forall k :: 0 <= k < |x| ==> x[k] != '-';
  }

  /** `"a-b".split("-")` on two numerals gives back the numerals, and their midpoint is the floor of the mean. */
  lemma RangeOfNumerals(a: nat, b: nat)
    ensures '-' in DecimalString(a) + "-" + DecimalString(b)
    ensures RangeMidpoint(DecimalString(a) + "-" + DecimalString(b)) == Some((a + b) / 2)
  {
    NumeralHasNoDash(a);
    NumeralHasNoDash(b);
    ParseDecimal(a);
    ParseDecimal(b);
    MidpointOfParts(DecimalString(a), DecimalString(b), a, b);
  }

  /** A BUDGET range "a-b" is written to the sheet as the floor of its midpoint. */
  lemma RangeCollapsed(a: nat, b: nat, details: Dict)
    requires "BUDGET" in details && details["BUDGET"] == Str(DecimalString(a) + "-" + DecimalString(b))
    ensures BudgetIsUsable(details)
    ensures NewValue("BUDGET", details) == Str(DecimalString((a + b) / 2))
  {
    RangeOfNumerals(a, b);
  }

  /**
   * The records the post-processing produces can be reconciled: CATEGORY is
   * carried over unchanged and BUDGET becomes a numeral, so the range
   * conversion never applies to them.
   */
  lemma RefinedRecordUsable(details: Dict, findBudgets: BudgetFinder)
    requires CategoryIsText(details)
    ensures CategoryIsText(Refined(details, findBudgets)) && BudgetIsUsable(Refined(details, findBudgets))
    ensures "CATEGORY" in details ==> Refined(details, findBudgets)["CATEGORY"] == details["CATEGORY"]
    ensures '-' !in Refined(details, findBudgets)["BUDGET"].s
  {
    var r := Refined(details, findBudgets);
    var budget := BudgetText(findBudgets(TaskText(details)));
    assert forall k :: 0 <= k < |budget| ==> budget[k] != '-';
    if "CATEGORY" !in details {
      assert "CATEGORY" !in r;
    }
  }
}
