# Renovation task reconciliation in Dafny

This project models the core of a tool that reads freeform renovation task
records and reconciles them into a spreadsheet with one sheet per trade. The
records come as a mapping from a task description to its fields (CATEGORY,
BUDGET, PROPOSED, COMMENT, DWG REF, LEAD). The model covers two stages.

1. **Post-processing of the records** (`extract_renovation_details`, after
   the JSON is parsed). Every record is rewritten in place:
   - BUDGET becomes the truncated sum of every budget-pattern match in
     "COMMENT PROPOSED"; a range contributes its mean, and no match gives "0";
   - DWG REF becomes the comma-joined standalone tokens of four or more
     digits, when there is at least one;
   - LEAD becomes the two-word name after the leftmost "managed by",
     "handled by" or "led by" (any case), else "Unknown";
   - a PLUMBING record has PROPOSED moved to PROPOSAL.
2. **Spreadsheet reconciliation** (`update_spreadsheet`). Each recognised
   sheet:
   - groups the records of its category by lower-cased description;
   - finds its header row;
   - matches every data row to the best-scoring record (strictly highest
     score, earliest on a tie, accepted at 40 or more);
   - writes that record's columns under the overwrite policy;
   - appends one row per record that no write recorded.

Modules:
- `Builtins` (builtins.dfy) gives Python values (string, integer and boolean
  cells and fields), Python `==`, truthiness, `str()`, `int()`,
  `lower`/`upper`/`strip` and `split("-")`.
- `Refine` (refine.dfy) is the post-processing loop. `ExtractedData` is the
  record mapping it rewrites in place.
- `Reconcile` (reconcile.dfy) specifies one sheet's pass as functions of the
  sheet's rows and proves its properties.
- `Spreadsheet` (spreadsheet.dfy) holds the loops as methods on the classes
  `Sheet` and `Workbook`. Each method is proved to produce what `Reconcile`
  specifies.

Where the code and its documented intent differ, the model follows the code:
- A new LEAD of "Unknown" or "" overwrites an existing name, unless the cell
  already holds exactly that value (`Reconcile.UnknownLeadOverwritesName`).
- Matched records are not consumed. Several rows can match the same record,
  and every row scores against all of the sheet's records.
- A cell that already equals its new value is not written, for BUDGET too
  when the cell is truthy and not "0". A record whose every column is skipped
  is not recorded in `updated_tasks`. It is therefore appended again as a new
  row, even though a row for it exists (`Reconcile.WriteColumnsSpec`,
  `Reconcile.PassShape`).
- Appended rows carry the raw field values, so a BUDGET range "a-b" is
  appended as written. Only writes to matched rows collapse it to the
  midpoint.
- After post-processing, BUDGET is always a plain numeral
  (`Reconcile.RefinedRecordUsable`). So in the full pipeline the range
  conversion of `update_spreadsheet` never applies.

## Model

| member | source | states |
|---|---|---|
| Builtins.TrimStartShape | app.py:148 | stripping leading whitespace leaves a suffix of the text that does not start with whitespace |
| Builtins.TrimEndShape | app.py:148 | stripping trailing whitespace leaves a prefix of the text that does not end with whitespace |
| Builtins.StripShape | app.py:148 | `strip()` is no longer than its input, keeps only the input's characters, and has no whitespace at either end |
| Builtins.DecimalString | app.py:110 | `str(n)` of a non-negative integer is a non-empty string of digits, without a leading zero unless it is "0", that denotes `n` |
| Builtins.ParseDecimal | app.py:204 | `int(str(n)) == n` for every non-negative `n` |
| Builtins.ParseInt | app.py:204 | `int(s)` of a non-empty string of ASCII digits is the number they denote; a value parsed from text without a dash is never negative |
| Builtins.SplitDash | app.py:204 | `s.split("-")` unpacked into two names: the result is two dash-free parts that rejoin to `s`, and there is no result exactly when no such split exists (Python raises then) |
| Builtins.SplitUnique | app.py:204 | a string splits at a dash into two dash-free parts in only one way |
| Builtins.Join | app.py:115 | `sep.join(xs)` is as long as all the pieces together plus one separator between each two |
| Refine.DoubledSumConcat | app.py:110 | the sum over two concatenated match lists is the sum of their sums |
| Refine.FlattenSum | app.py:96-110 | summing the flat `budget_numbers` list equals summing pattern by pattern |
| Refine.BudgetText | app.py:96-110 | the new BUDGET is a plain numeral whose value is the truncated total, with every range counted as its mean, and is "0" when nothing matched |
| Refine.TaskText | app.py:94 | `task_text`: COMMENT and PROPOSED, as `str()` shows them and with "" for a missing one, joined by one space (a definition; the properties of the three searches over it are stated by `BudgetText`, `RefSpansSpec` and `LeadOf`) |
| Refine.ExtraMatchAddsItsShare | app.py:99-107 | one more match of any pattern raises the doubled total by exactly that match's share, so an amount two patterns both find counts twice |
| Refine.ExtraMatchNeverLowersBudget | app.py:99-110 | one more budget match never lowers the inferred BUDGET |
| Refine.InferBudget | app.py:96-110 | the nested pattern/match loop that fills `budget_numbers` yields exactly `BudgetText` |
| Refine.RunEnd | app.py:113 | the end of a digit run: everything before it is a digit and the character at it is not |
| Refine.RefInRun | app.py:113 | a match of `\b\d{4,}\b` starting inside a digit run is that whole run, or lies after it |
| Refine.RefAt | app.py:113 | `\b\d{4,}\b` matches a given span: four or more digits with a word boundary on each side (a definition, used by the `RefSpans` lemmas) |
| Refine.RefSpans | app.py:113 | the scan for `\b\d{4,}\b` matches from a position on (a definition; `RefSpansSpec` states that it finds exactly the matches, in order) |
| Refine.RefSpansSound | app.py:113 | every reported span is a match of `\b\d{4,}\b` |
| Refine.RefSpansOrdered | app.py:113 | reported spans come in order of position and do not overlap |
| Refine.RefSpansComplete | app.py:113 | no match of `\b\d{4,}\b` is missed |
| Refine.RefSpansSpec | app.py:113 | the reported spans are exactly the pattern's matches, in order |
| Refine.RefTokens | app.py:113-115 | every DWG REF token has at least four characters, all digits |
| Refine.TwoWordsShape | app.py:118 | a `(\w+ \w+)` match after a phrase ends its first word where that word's run ends and stays inside the second word's run |
| Refine.NameAfter | app.py:118 | the name group is absent exactly when no two-word match follows, and otherwise is the greedy match, ending at a non-word character |
| Refine.NameHasSpace | app.py:118 | a matched name always holds the separating space |
| Refine.PhraseAt | app.py:118 | one alternative of the lead pattern occurs at a position, compared case-insensitively (a definition, used by `MatchAtNone` and `MatchAtFirst`) |
| Refine.MatchAt | app.py:118 | the regular-expression alternation tried at one position, first alternative first (a definition; `MatchAtNone` and `MatchAtFirst` state what it yields) |
| Refine.MatchAtNone | app.py:118 | the lead pattern fails at a position exactly when no alternative is followed there by a two-word name |
| Refine.MatchAtFirst | app.py:118 | when some alternative matches at a position, the captured name is the one after the first such alternative |
| Refine.LeadMatch | app.py:118 | a name the lead pattern captures at a position holds the space between its two words |
| Refine.MatchedNameHasSpace | app.py:118-119 | whichever alternative matches, the captured name holds a space |
| Refine.LeadSearch | app.py:118 | `re.search` finds the leftmost position where the lead pattern matches, or none |
| Refine.LeadOf | app.py:118-119 | LEAD is "Unknown" exactly when the pattern matches nowhere; otherwise it is the name captured at the leftmost match |
| Refine.IsPlumbing | app.py:122 | `details.get("CATEGORY") == "PLUMBING"`, case-sensitive and without stripping (a definition, used by `Refined` and `RefinedKeys`) |
| Refine.Rewritten | app.py:94-119 | after the first three rules: BUDGET is the inferred total, DWG REF the joined tokens when there are any and otherwise as before, LEAD the captured name or "Unknown"; only these keys are added and every other field is kept |
| Refine.Refined | app.py:93-123 | the rewritten record: the BUDGET, DWG REF and LEAD rules; for a PLUMBING record, PROPOSAL holds the old PROPOSED or `False`; for any other record PROPOSED and PROPOSAL are kept as they were; every other field is kept unchanged |
| Refine.RefinedKeys | app.py:110-123 | the fields of the rewritten record are exactly the old ones plus BUDGET and LEAD, plus DWG REF when a token was found; a PLUMBING record also loses PROPOSED and gains PROPOSAL |
| Refine.RefineDetails | app.py:94-123 | the field-by-field rewrite of one record yields exactly `Refined` |
| Refine.ExtractedData.PostProcess | app.py:93-123 | every record is rewritten in place, and descriptions and record order stay the same |
| Reconcile.SheetColumns | app.py:138-145 | the schema of a recognised sheet is a non-empty list of known columns |
| Reconcile.SheetKey | app.py:148 | `sheet.upper().strip()` is no longer than the title, has no lower-case ASCII letter and no whitespace at either end |
| Reconcile.SchemaColumnsDistinct | app.py:138-145 | no schema lists a column twice |
| Reconcile.CategoryKey | app.py:157 | `data.get("CATEGORY", "").upper()` has the length of the category text and no lower-case ASCII letter |
| Reconcile.Upsert | app.py:155-158 | adding a description to the dictionary adds its key to the key set, and grows the candidates by one exactly when the key is new |
| Reconcile.UpsertKeepsOthers | app.py:155-158 | adding a description leaves every other candidate where it was and keeps the keys distinct |
| Reconcile.KeyIndex | app.py:156 | the position of a description among the candidates, or none when it is absent |
| Reconcile.LastWith | app.py:155-158 | the last record of a sheet with a given lower-cased description |
| Reconcile.FirstWith | app.py:155-158 | the first record of a sheet with a given lower-cased description |
| Reconcile.Relevant | app.py:155-158 | every candidate carries a record that the sheet pass can process |
| Reconcile.OccurrencesSkip | app.py:157 | a record of another sheet changes no first or last occurrence |
| Reconcile.OccurrencesChosen | app.py:156-157 | a record of the sheet becomes the last occurrence of its description, and the first one if it is new |
| Reconcile.GroupedSkip | app.py:157 | a record of another sheet leaves the grouping unchanged |
| Reconcile.GroupedReplace | app.py:156 | a repeated description replaces its candidate's record and keeps its place |
| Reconcile.GroupedAppend | app.py:156 | a new description is appended as a new candidate |
| Reconcile.UncoveredUnseen | app.py:155-158 | a description no candidate holds has no record of the sheet so far |
| Reconcile.AppendOrdered | app.py:156 | appending a new description keeps the candidates ordered by first occurrence |
| Reconcile.RelevantStep | app.py:155-158 | one more record keeps the candidates the grouping of the records seen so far |
| Reconcile.RelevantSpec | app.py:155-158 | the candidates are one per distinct lower-cased description among the sheet's records, hold the last such record, and are ordered by first occurrence; every record of the sheet is covered |
| Reconcile.RelevantIgnoresOtherCategories | app.py:155-158 | dropping a record of another category leaves the candidates unchanged |
| Reconcile.HeaderFrom | app.py:169-173 | the header is the first row naming a required column, and none exists exactly when no row names one |
| Reconcile.FirstIndex | app.py:172 | `row.index(x)` is the first position holding `x` |
| Reconcile.ColumnIndices | app.py:172 | exactly the required columns the header names are located, each at its first position in the header |
| Reconcile.SetCell | app.py:209 | writing a cell changes that cell only, padding a short row with empty cells |
| Reconcile.TaskKey | app.py:183-185 | a key exists exactly when the first cell is truthy; it is no longer than the cell's text, has no upper-case ASCII letter and no whitespace at either end |
| Reconcile.BestAmong | app.py:188-192 | the best candidate has the strictly highest score, the earliest on a tie, and there is none when every score is 0 |
| Reconcile.MatchThresholdBoundary | app.py:195 | a best score of 40 is accepted and one of 39 is not |
| Reconcile.Accepted | app.py:195 | `best_match and best_score >= 40`: a best candidate exists, its description is non-empty and its score is at least 40 (a definition; `MatchThresholdBoundary` pins the threshold) |
| Reconcile.RangeMidpoint | app.py:203-205 | a collapsed BUDGET range is never negative |
| Reconcile.NewValue | app.py:200-205 | the value to write is the record's field, or "" when absent; for BUDGET it is text without a dash |
| Reconcile.SkipsWrite | app.py:207-219 | the overwrite policy: a write is skipped only when the BUDGET rule (cell "0" or falsy) and the LEAD rule (new value other than "Unknown" or "") do not force it, the cell is not None, "" or "0", and it already equals the new value (a definition; `SkipOnlyWhenAlreadyEqual` states its consequences) |
| Reconcile.WriteColumns | app.py:196-223 | the column loop over one matched row changes nothing when it reports no write |
| Reconcile.WriteColumnsSpec | app.py:196-223 | after an accepted match, each located column holds the new value unless the old cell was left as it was; every located column then equals the new value; no other cell changes; the record is recorded exactly when some cell was written |
| Reconcile.SkipOnlyWhenAlreadyEqual | app.py:207-219 | a write is skipped only when the old cell is non-blank and already equal. Any other located non-LEAD column with a truthy, equal cell is skipped. A LEAD other than "Unknown" or "" is always written. A BUDGET that differs is always written |
| Reconcile.UnknownLeadOverwritesName | app.py:212-221 | a new LEAD of "Unknown" replaces a different existing name |
| Reconcile.RowOutcome | app.py:183-223 | a row that records nothing is unchanged, and a recorded description is never empty |
| Reconcile.RowOutcomeKey | app.py:183-223 | a recorded description is one of the sheet's candidates |
| Reconcile.ScannedUpTo | app.py:182-223 | the row loop, stopped before a given row, keeps the number of rows |
| Reconcile.ScannedUpToRows | app.py:182-223 | after scanning up to a row, every row scanned so far holds its outcome and every other row is unchanged |
| Reconcile.ScanStep | app.py:182-223 | scanning one more row replaces that row by its outcome and adds its recorded description, if any |
| Reconcile.ScannedRows | app.py:182-223 | the row loop keeps the number of rows |
| Reconcile.Recorded | app.py:179-222 | `updated_tasks` after the rows scanned so far (a definition; `RecordedKeys` states what it holds) |
| Reconcile.RecordedKeys | app.py:179-222 | `updated_tasks` holds only candidates' descriptions, and never the empty one |
| Reconcile.LastKeyFresh | app.py:156 | with distinct descriptions, the last candidate's key is new |
| Reconcile.KeySetSnoc | app.py:226 | the key set grows by the last candidate's key |
| Reconcile.NewRow | app.py:228 | a fallback row holds the description followed by one value per schema column |
| Reconcile.FallbackRows | app.py:226-229 | the fallback loop appends at most one row per candidate |
| Reconcile.FallbackFirstCells | app.py:228 | every appended row starts with a candidate's description |
| Reconcile.FallbackCount | app.py:226-229 | the sheet grows by one row per distinct candidate missing from `updated_tasks` |
| Reconcile.FallbackSound | app.py:226-229 | every appended row is the fallback row of a candidate missing from `updated_tasks` |
| Reconcile.FallbackComplete | app.py:226-229 | every candidate missing from `updated_tasks` gets its fallback row |
| Reconcile.FallbackDistinct | app.py:226-229 | no two appended rows carry the same description |
| Reconcile.FallbackSpec | app.py:226-229 | each unrecorded candidate is appended exactly once, and nothing else is |
| Reconcile.ReconcileSheet | app.py:147-229 | one sheet's pass keeps every row and adds at most one row per record |
| Reconcile.SkippedSheetUnchanged | app.py:147-177 | an unrecognised sheet, a sheet without records and a sheet without a header row are left as they are; nothing is demanded of the rows or, for an unrecognised sheet, of the records |
| Reconcile.PassShape | app.py:179-229 | rows up to the header are kept, and a row below it changes only through an accepted match. The sheet grows by exactly the number of unrecorded candidates, and every appended row is such a candidate's fallback row |
| Reconcile.ReconcileSheetShape | app.py:147-229 | once a sheet is recognised, has records and has a header, its pass is the row loop followed by the fallback loop over distinct candidates |
| Reconcile.ColumnPositionsDistinct | app.py:172 | the columns a header locates sit at distinct positions |
| Reconcile.MatchedRowFollowsPolicy | app.py:194-223 | in a sheet's pass, each located column of a matched row keeps its old cell when the policy skips the write and otherwise holds the new value; cells outside the located columns keep their values |
| Reconcile.OtherCategoryIgnored | app.py:155-158 | a record whose category names another sheet has no effect on this sheet |
| Reconcile.UnknownCategoryDropped | app.py:147-158 | a record whose category is not a recognised sheet has no effect on any sheet |
| Reconcile.SplitJoined | app.py:204 | splitting two dash-free parts joined by a dash gives back the parts |
| Reconcile.MidpointOfParts | app.py:203-205 | a range whose parts parse as `a` and `b` collapses to `(a + b) // 2` |
| Reconcile.NumeralHasNoDash | app.py:203 | a numeral contains no dash |
| Reconcile.RangeOfNumerals | app.py:203-205 | the range "a-b" of two numerals collapses to the floor of their mean |
| Reconcile.RangeCollapsed | app.py:200-205 | a BUDGET of "a-b" is written as `str((a + b) // 2)` |
| Reconcile.RefinedRecordUsable | app.py:110 | a post-processed record keeps its CATEGORY, and its BUDGET is a numeral without a dash, so the sheet pass can process it |
| Spreadsheet.FindHeader | app.py:169-173 | the header search loop returns the first row naming a required column |
| Spreadsheet.FindBestMatch | app.py:188-192 | the scoring loop returns the best candidate as `BestAmong` defines it |
| Spreadsheet.Sheet.WriteRow | app.py:196-223 | the column loop of one matched row writes exactly what `WriteColumns` specifies, and reports whether it wrote |
| Spreadsheet.Sheet.ScanRow | app.py:183-223 | one row is matched and written as `RowOutcome` specifies, returning the recorded description |
| Spreadsheet.Sheet.UpdateRows | app.py:179-223 | the row loop leaves the rows as `ScannedRows` specifies, and returns `updated_tasks` |
| Spreadsheet.Sheet.AppendMissing | app.py:226-229 | the fallback loop appends exactly `FallbackRows` |
| Spreadsheet.Sheet.Reconcile | app.py:147-229 | one sheet's pass leaves its rows as `ReconcileSheet` specifies; the only demands are those of `SheetInputUsable`, on the records of a recognised sheet and on the rows below its header |
| Spreadsheet.Workbook.constructor | app.py:136 | a workbook built from distinct sheets holds them in order and is valid |
| Spreadsheet.Workbook.Update | app.py:147-229 | every sheet of the workbook is reconciled on its own, and only the sheets' rows change |

## Left out

- Loading and saving the workbook, reading the transcript (DOCX or PDF) and
  the command line are I/O and are not modelled. The call to the generative
  text service, with its JSON cleaning and parsing, is also left out. The
  model starts from the parsed record mapping.
- Progress and warning messages (`print`) are not modelled.
- The six budget regular expressions are not modelled. The caller supplies
  their `re.findall` results as a function from the task text to one match
  list per pattern. The model covers what the loop does with those matches.
- `fuzz.partial_ratio` is a parameter: any function from two descriptions
  to a score from 0 to 100.
- Refine.BudgetText: ranges are summed exactly, by doubling every
  contribution. Floating-point rounding of `(start + end) / 2` and of the
  sum is not modelled; it only matters beyond 2^53.
- Inputs on which the source raises an exception are kept out by
  preconditions (`Reconcile.SheetInputUsable`). For a sheet that is not
  recognised nothing is demanded. For a recognised sheet:
  - every record must have a text CATEGORY (`Reconcile.CategoryIsText`),
    since the comprehension of app.py:155-158 upper-cases the category of
    every record;
  - every record must have a text BUDGET, and a BUDGET with a dash must
    split into two integers (`Reconcile.BudgetIsUsable`). This is STRONGER
    than the condition under which the source raises: it raises only when a
    matched record's BUDGET is written to a located BUDGET column
    (app.py:203-204). A record that is never matched, or a sheet without a
    BUDGET column, would not raise in the source but is still excluded;
  - once the sheet has records and a header row, every truthy first cell
    below the header must be text (`Reconcile.TaskCellIsText`). Rows above
    the header are not constrained.

  Records produced by the post-processing always meet the record conditions
  when their CATEGORY is text: their BUDGET is a numeral without a dash
  (`Reconcile.RefinedRecordUsable`). The stronger BUDGET condition therefore
  excludes nothing in the full pipeline.
- `int()` accepts surrounding ASCII whitespace, one sign and ASCII digits.
  Digit-group underscores and non-ASCII digits are not modelled.
- `\w`, `\d`, `\b`, case-insensitive matching, `lower`, `upper` and `strip`
  are modelled for ASCII text only.
- Cell and field values are text, integers and booleans. Floats, dates and
  formulas are not modelled.
- A sheet's rows are their cell values. Rows shorter than the widest row are
  read as padded with empty cells. Formatting, merged cells and openpyxl's
  notion of `max_row` beyond the last row are not modelled.
