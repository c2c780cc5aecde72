/**
 * The deterministic post-processing that `extract_renovation_details` runs on
 * each task record once the service's answer has been parsed as JSON: it
 * rewrites BUDGET, DWG REF and LEAD from the record's own text and renames
 * PROPOSED to PROPOSAL on plumbing records.
 */
module Refine {
  import opened Builtins

  /** One task of the parsed answer: its description and its field record. */
  datatype Entry = Entry(task: string, details: Dict)

  // ================================================================ budget

  /**
   * What one budget context pattern finds: a single amount (a pattern with
   * one group) or the two ends of an "around X - Y" range (two groups).
   */
  datatype BudgetMatch = Amount(n: nat) | Range(start: nat, end: nat)

  /**
   * `re.findall` of each of the six budget context patterns over a text, in
   * the patterns' fixed order.  The regular-expression engine is not
   * modelled: the caller supplies the matches.
   */
  type BudgetFinder = string -> seq<seq<BudgetMatch>>

  /** Twice what a match adds to `budget_numbers`: a range adds its mean. */
  function Doubled(m: BudgetMatch): nat {
    match m
    case Amount(n) => 2 * n
    case Range(a, b) => a + b
  }

  /** Twice `sum(numbers)`, kept integral so that a range's `.5` is exact. */
  function DoubledSum(numbers: seq<BudgetMatch>): nat {
    if numbers == [] then 0 else DoubledSum(numbers[..|numbers| - 1]) + Doubled(numbers[|numbers| - 1])
  }

  /** The `budget_numbers` list: all matches of the first pattern, then of the second, ... */
  function Flatten(pms: seq<seq<BudgetMatch>>): seq<BudgetMatch> {
    if pms == [] then [] else Flatten(pms[..|pms| - 1]) + pms[|pms| - 1]
  }

  /** Twice the budget, summed pattern by pattern. */
  function PatternsDoubledSum(pms: seq<seq<BudgetMatch>>): nat {
    if pms == [] then 0 else PatternsDoubledSum(pms[..|pms| - 1]) + DoubledSum(pms[|pms| - 1])
  }

  /**
   * The new BUDGET text: the truncated sum of every contribution, or "0"
   * when no pattern matched.  It is always a plain non-negative numeral.
   */
  function BudgetText(pms: seq<seq<BudgetMatch>>): (r: string)
    ensures |r| > 0 && AllDigits(r) && (r[0] == '0' ==> r == "0")
    ensures DigitsValue(r) == PatternsDoubledSum(pms) / 2
    ensures Flatten(pms) == [] ==> r == "0"
  {
    var numbers := Flatten(pms);
    FlattenSum(pms);
    if numbers == [] then
      assert "0"[..0] == [];
      "0"
    else DecimalString(DoubledSum(numbers) / 2)
  }

  lemma {:induction false} DoubledSumConcat(a: seq<BudgetMatch>, b: seq<BudgetMatch>)
    ensures DoubledSum(a + b) == DoubledSum(a) + DoubledSum(b)
    decreases |b|
  {
    if b != [] {
      var last := b[|b| - 1];
      assert (a + b)[..|a + b| - 1] == a + b[..|b| - 1];
      DoubledSumConcat(a, b[..|b| - 1]);
    } else {
      assert a + b == a;
    }
  }

  /** Summing the flat `budget_numbers` list is summing pattern by pattern. */
  lemma {:induction false} FlattenSum(pms: seq<seq<BudgetMatch>>)
    ensures DoubledSum(Flatten(pms)) == PatternsDoubledSum(pms)
    decreases |pms|
  {
    if pms != [] {
      FlattenSum(pms[..|pms| - 1]);
      DoubledSumConcat(Flatten(pms[..|pms| - 1]), pms[|pms| - 1]);
    }
  }

  /**
   * Every match counts on its own: one more match of any pattern raises the
   * doubled total by exactly its share, so an amount that two patterns both
   * find is counted twice.
   */
  lemma {:induction false} ExtraMatchAddsItsShare(pms: seq<seq<BudgetMatch>>, k: nat, m: BudgetMatch)
    requires k < |pms|
    ensures PatternsDoubledSum(pms[k := pms[k] + [m]]) == PatternsDoubledSum(pms) + Doubled(m)
    decreases |pms|
  {
    var grown := pms[k := pms[k] + [m]];
    var n := |pms| - 1;
    if k == n {
      assert (pms[k] + [m])[..|pms[k]|] == pms[k];
      assert DoubledSum(pms[k] + [m]) == DoubledSum(pms[k]) + Doubled(m);
      assert grown[..n] == pms[..n];
    } else {
      assert grown[..n] == pms[..n][k := pms[k] + [m]];
      assert grown[n] == pms[n];
      ExtraMatchAddsItsShare(pms[..n], k, m);
    }
  }

  /** One more budget match never lowers the inferred BUDGET. */
  lemma ExtraMatchNeverLowersBudget(pms: seq<seq<BudgetMatch>>, k: nat, m: BudgetMatch)
    requires k < |pms|
    ensures DigitsValue(BudgetText(pms[k := pms[k] + [m]])) >= DigitsValue(BudgetText(pms))
  {
    ExtraMatchAddsItsShare(pms, k, m);
  }

  /**
   * The budget loop of app.py:96-110: gather every match of every pattern
   * into `budget_numbers`, then format the truncated sum.
   */
  method InferBudget(pms: seq<seq<BudgetMatch>>) returns (budget: string)
    ensures budget == BudgetText(pms)
  {
    var numbers: seq<BudgetMatch> := [];
    for k := 0 to |pms|
      invariant numbers == Flatten(pms[..k])
    {
      for j := 0 to |pms[k]|
        invariant numbers == Flatten(pms[..k]) + pms[k][..j]
      {
        numbers := numbers + [pms[k][j]];
      }
      assert pms[..k + 1][..k] == pms[..k];
      assert pms[k][..|pms[k]|] == pms[k];
    }
    assert pms[..|pms|] == pms;
    budget := if numbers != [] then DecimalString(DoubledSum(numbers) / 2) else "0";
  }

  // ================================================================ drawing references

  /** The regular-expression assertion `\b` at position `k` of `t`. */
  predicate Boundary(t: string, k: nat)
    requires k <= |t|
  {
    (k > 0 && IsWordChar(t[k - 1])) != (k < |t| && IsWordChar(t[k]))
  }

  predicate DigitsBetween(t: string, i: nat, j: nat)
    requires i <= j <= |t|
  {
    forall k :: i <= k < j ==> IsDigit(t[k])
  }

  /** `\b\d{4,}\b` matches exactly `t[i..j]`. */
  predicate RefAt(t: string, i: nat, j: nat) {
    i + 4 <= j <= |t| && DigitsBetween(t, i, j) && Boundary(t, i) && Boundary(t, j)
  }

  /** The end of the run of digits that starts at `i`. */
  function RunEnd(t: string, i: nat): (j: nat)
    requires i <= |t|
    ensures i <= j <= |t| && DigitsBetween(t, i, j) && (j < |t| ==> !IsDigit(t[j]))
    ensures i < |t| && IsDigit(t[i]) ==> i < j
    decreases |t| - i
  {
    if i < |t| && IsDigit(t[i]) then RunEnd(t, i + 1) else i
  }

  /** A match of the reference pattern that starts inside a digit run is that whole run. */
  lemma RefInRun(t: string, i: nat, a: nat, b: nat)
    requires i < |t| && IsDigit(t[i]) && i <= a && RefAt(t, a, b)
    ensures (a == i && b == RunEnd(t, i)) || RunEnd(t, i) <= a
  {
    var j := RunEnd(t, i);
    assert forall k: nat :: i < k < j ==> !Boundary(t, k);
  }

  /** The spans `re.findall(r'\b\d{4,}\b', t)` reports from position `i` on, scanning digit run by digit run. */
  function RefSpans(t: string, i: nat): seq<(nat, nat)>
    requires i <= |t|
    decreases |t| - i
  {
    if i == |t| then []
    else if IsDigit(t[i]) then
      var j := RunEnd(t, i);
      (if RefAt(t, i, j) then [(i, j)] else []) + RefSpans(t, j)
    else RefSpans(t, i + 1)
  }

  /** Each reported span is a match of the pattern from position `i` on. */
  lemma {:induction false} RefSpansSound(t: string, i: nat)
    requires i <= |t|
    ensures forall k :: 0 <= k < |RefSpans(t, i)| ==> i <= RefSpans(t, i)[k].0 && RefAt(t, RefSpans(t, i)[k].0, RefSpans(t, i)[k].1)
    decreases |t| - i
  {
    if i < |t| {
      if IsDigit(t[i]) {
        RefSpansSound(t, RunEnd(t, i));
      } else {
        RefSpansSound(t, i + 1);
      }
    }
  }

  /** The reported spans come in order of position and do not overlap. */
  lemma {:induction false} RefSpansOrdered(t: string, i: nat)
    requires i <= |t|
    ensures forall k, l :: 0 <= k < l < |RefSpans(t, i)| ==> RefSpans(t, i)[k].1 <= RefSpans(t, i)[l].0
    decreases |t| - i
  {
    if i < |t| {
      if IsDigit(t[i]) {
        var j := RunEnd(t, i);
        RefSpansOrdered(t, j);
        RefSpansSound(t, j);
      } else {
        RefSpansOrdered(t, i + 1);
      }
    }
  }

  /** No match of the pattern from position `i` on is missed. */
  lemma {:induction false} RefSpansComplete(t: string, i: nat)
    requires i <= |t|
    ensures forall a: nat, b: nat :: i <= a && RefAt(t, a, b) ==> (a, b) in RefSpans(t, i)
    decreases |t| - i
  {
    if i == |t| {
      assert forall a: nat, b: nat :: i <= a && RefAt(t, a, b) ==> false;
    } else if IsDigit(t[i]) {
      var j := RunEnd(t, i);
      var here: seq<(nat, nat)> := if RefAt(t, i, j) then [(i, j)] else [];
      RefSpansComplete(t, j);
      assert RefSpans(t, i) == here + RefSpans(t, j);
      forall a: nat, b: nat | i <= a && RefAt(t, a, b)
        ensures (a, b) in here + RefSpans(t, j)
      {
        RefInRun(t, i, a, b);
      }
    } else {
      RefSpansComplete(t, i + 1);
      assert forall b: nat :: !RefAt(t, i, b);
    }
  }

  /**
   * The spans from position `i` on are exactly the matches of the pattern
   * from there, in order of position.
   */
  lemma RefSpansSpec(t: string, i: nat)
    requires i <= |t|
    ensures forall k :: 0 <= k < |RefSpans(t, i)| ==> i <= RefSpans(t, i)[k].0 && RefAt(t, RefSpans(t, i)[k].0, RefSpans(t, i)[k].1)
    ensures forall k, l :: 0 <= k < l < |RefSpans(t, i)| ==> RefSpans(t, i)[k].1 <= RefSpans(t, i)[l].0
    ensures forall a: nat, b: nat :: i <= a && RefAt(t, a, b) ==> (a, b) in RefSpans(t, i)
  {
    RefSpansSound(t, i);
    RefSpansOrdered(t, i);
    RefSpansComplete(t, i);
  }

  /** `re.findall(r'\b\d{4,}\b', t)`: every standalone 4+ digit token, in order, repeats kept. */
  function RefTokens(t: string): (r: seq<string>)
    ensures forall k :: 0 <= k < |r| ==> |r[k]| >= 4 && AllDigits(r[k])
  {
    var spans := RefSpans(t, 0);
    RefSpansSpec(t, 0);
    seq(|spans|, k requires 0 <= k < |spans| => t[spans[k].0..spans[k].1])
  }

  // ================================================================ lead

  /** The alternatives of the lead pattern, in their order in the pattern. */
  const LeadPhrases: seq<string> := ["managed by", "handled by", "led by"]

  /** The lower-case phrase `p` matches at `i`, ignoring case. */
  predicate PhraseAt(t: string, i: nat, p: string) {
    i + |p| <= |t| && forall k :: 0 <= k < |p| ==> LowerChar(t[i + k]) == p[k]
  }

  predicate WordsBetween(t: string, i: nat, j: nat)
    requires i <= j <= |t|
  {
    forall k :: i <= k < j ==> IsWordChar(t[k])
  }

  /** The end of the run of word characters that starts at `i`. */
  function WordEnd(t: string, i: nat): (j: nat)
    requires i <= |t|
    ensures i <= j <= |t| && WordsBetween(t, i, j) && (j < |t| ==> !IsWordChar(t[j]))
    decreases |t| - i
  {
    if i < |t| && IsWordChar(t[i]) then WordEnd(t, i + 1) else i
  }

  lemma WordEndUnique(t: string, i: nat, j: nat)
    requires i <= j < |t| && WordsBetween(t, i, j) && !IsWordChar(t[j])
    ensures WordEnd(t, i) == j
  {
  }

  /** ` \w+ \w+` matches `t[e..j2]`, the first word ending at `j1`. */
  predicate TwoWordsAt(t: string, e: nat, j1: nat, j2: nat) {
    e + 1 < j1 < j2 - 1 && j2 <= |t| && t[e] == ' ' && t[j1] == ' '
    && WordsBetween(t, e + 1, j1) && WordsBetween(t, j1 + 1, j2)
  }

  /** Backtracking cannot help `\w+`: a match of ` \w+ \w+` takes the whole first word. */
  lemma TwoWordsShape(t: string, e: nat)
    requires e <= |t|
    ensures forall j1: nat, j2: nat :: TwoWordsAt(t, e, j1, j2) ==> j1 == WordEnd(t, e + 1) && j2 <= WordEnd(t, j1 + 1)
  {
    forall j1: nat, j2: nat | TwoWordsAt(t, e, j1, j2)
      ensures j1 == WordEnd(t, e + 1) && j2 <= WordEnd(t, j1 + 1)
    {
      WordEndUnique(t, e + 1, j1);
      WordEndCovers(t, j1 + 1, j2);
    }
  }

  lemma WordEndCovers(t: string, i: nat, j: nat)
    requires i <= j <= |t| && WordsBetween(t, i, j)
    ensures j <= WordEnd(t, i)
  {
  }

  /**
   * The second group of the lead pattern when ` (\w+ \w+)` is matched from
   * `e`: two words with one space between them, the second taken greedily.
   */
  function NameAfter(t: string, e: nat): (r: Option<string>)
    requires e <= |t|
    ensures r.None? ==> forall j1: nat, j2: nat :: !TwoWordsAt(t, e, j1, j2)
    ensures r.Some? ==> exists j1: nat, j2: nat :: TwoWordsAt(t, e, j1, j2) && r.value == t[e + 1..j2] && (j2 < |t| ==> !IsWordChar(t[j2]))
  {
    TwoWordsShape(t, e);
    if e < |t| && t[e] == ' ' then
      var e1 := WordEnd(t, e + 1);
      if e + 1 < e1 < |t| && t[e1] == ' ' then
        var e2 := WordEnd(t, e1 + 1);
        if e1 + 1 < e2 then
          assert TwoWordsAt(t, e, e1, e2);
          Some(t[e + 1..e2])
        else None
      else None
    else None
  }

  /** A name is two words separated by a single space. */
  lemma NameHasSpace(t: string, e: nat)
    requires e <= |t| && NameAfter(t, e).Some?
    ensures ' ' in NameAfter(t, e).value
  {
    var j1: nat, j2: nat :| TwoWordsAt(t, e, j1, j2) && NameAfter(t, e).value == t[e + 1..j2];
    assert NameAfter(t, e).value[j1 - e - 1] == ' ';
  }

  /** The alternative `p` followed by a name matches at `i`. */
  predicate AlternativeAt(t: string, i: nat, p: string) {
    PhraseAt(t, i, p) && NameAfter(t, i + |p|).Some?
  }

  /**
   * The name after the first alternative in `ps` that matches at `i`; the
   * regular-expression engine backtracks into the next alternative when a
   * phrase is not followed by a name.
   */
  function MatchAt(t: string, i: nat, ps: seq<string>): Option<string> {
    if ps == [] then None
    else if AlternativeAt(t, i, ps[0]) then NameAfter(t, i + |ps[0]|)
    else MatchAt(t, i, ps[1..])
  }

  /** `MatchAt` finds nothing exactly when no alternative matches. */
  lemma {:induction false} MatchAtNone(t: string, i: nat, ps: seq<string>)
    ensures MatchAt(t, i, ps).None? <==> forall k :: 0 <= k < |ps| ==> !AlternativeAt(t, i, ps[k])
    decreases |ps|
  {
    if ps != [] && !AlternativeAt(t, i, ps[0]) {
      MatchAtNone(t, i, ps[1..]);
      assert forall k :: 1 <= k < |ps| ==> ps[k] == ps[1..][k - 1];
    }
  }

  /** Alternative `k` is the first of `ps` to match at `i`. */
  predicate FirstAlternative(t: string, i: nat, ps: seq<string>, k: nat) {
    k < |ps| && AlternativeAt(t, i, ps[k]) && forall m :: 0 <= m < k ==> !AlternativeAt(t, i, ps[m])
  }

  /** When alternative `k` is the first to match, `MatchAt` yields the name after it. */
  lemma {:induction false} MatchAtFirst(t: string, i: nat, ps: seq<string>, k: nat)
    requires FirstAlternative(t, i, ps, k)
    ensures MatchAt(t, i, ps) == NameAfter(t, i + |ps[k]|)
    decreases |ps|
  {
    if k > 0 {
      var rest := ps[1..];
      assert !AlternativeAt(t, i, ps[0]);
      assert FirstAlternative(t, i, rest, k - 1) by {
        assert rest[k - 1] == ps[k];
        forall m | 0 <= m < k - 1
          ensures !AlternativeAt(t, i, rest[m])
        {
          assert rest[m] == ps[m + 1];
        }
      }
      MatchAtFirst(t, i, rest, k - 1);
    }
  }

  /** The lead pattern's group 2 for a match starting at `i`, if it matches there: always a name with a space. */
  function LeadMatch(t: string, i: nat): (r: Option<string>)
    ensures r.Some? ==> ' ' in r.value
  {
    var m := MatchAt(t, i, LeadPhrases);
    assert m.Some? ==> ' ' in m.value by {
      if m.Some? {
        MatchedNameHasSpace(t, i, LeadPhrases);
      }
    }
    m
  }

  lemma {:induction false} MatchedNameHasSpace(t: string, i: nat, ps: seq<string>)
    requires MatchAt(t, i, ps).Some?
    ensures ' ' in MatchAt(t, i, ps).value
    decreases |ps|
  {
    if AlternativeAt(t, i, ps[0]) {
      NameHasSpace(t, i + |ps[0]|);
    } else {
      MatchedNameHasSpace(t, i, ps[1..]);
    }
  }

  /** `re.search` from position `i`: the leftmost position where the lead pattern matches. */
  function LeadSearch(t: string, i: nat): (r: Option<nat>)
    requires i <= |t|
    ensures r.Some? ==> i <= r.value <= |t| && LeadMatch(t, r.value).Some?
    ensures r.Some? ==> forall k :: i <= k < r.value ==> LeadMatch(t, k).None?
    ensures r.None? ==> forall k :: i <= k <= |t| ==> LeadMatch(t, k).None?
    decreases |t| - i
  {
    if LeadMatch(t, i).Some? then Some(i)
    else if i == |t| then None
    else LeadSearch(t, i + 1)
  }

  /**
   * The new LEAD: the name after the leftmost "managed by", "handled by" or
   * "led by" (any case), or "Unknown" when the text has none.
   */
  function LeadOf(t: string): (r: string)
    ensures r == "Unknown" <==> forall k :: 0 <= k <= |t| ==> LeadMatch(t, k).None?
    ensures r != "Unknown" ==> exists k :: 0 <= k <= |t| && LeadMatch(t, k) == Some(r) && forall m :: 0 <= m < k ==> LeadMatch(t, m).None?
  {
    match LeadSearch(t, 0)
    case Some(k) => LeadMatch(t, k).value
    case None => "Unknown"
  }

  // ================================================================ one record

  /** The text the extractors read: `f"{COMMENT} {PROPOSED}"`, missing fields as "". */
  function TaskText(details: Dict): string {
    Display(Get(details, "COMMENT", Str(""))) + " " + Display(Get(details, "PROPOSED", Str("")))
  }

  /** `details.get("CATEGORY") == "PLUMBING"`: case-sensitive, no stripping. */
  predicate IsPlumbing(details: Dict) {
    "CATEGORY" in details && PyEq(details["CATEGORY"], Str("PLUMBING"))
  }

  /** The keys the post-processing may write or remove. */
  const RewrittenKeys: set<string> := {"BUDGET", "DWG REF", "LEAD", "PROPOSED", "PROPOSAL"}

  /** The record with BUDGET, DWG REF and LEAD rewritten (app.py:94-119). */
  function Rewritten(details: Dict, findBudgets: BudgetFinder): (r: Dict)
    ensures "BUDGET" in r && r["BUDGET"] == Str(BudgetText(findBudgets(TaskText(details))))
    ensures RefTokens(TaskText(details)) != [] ==> "DWG REF" in r && r["DWG REF"] == Str(Join(RefTokens(TaskText(details)), ", "))
    ensures RefTokens(TaskText(details)) == [] ==>
      ("DWG REF" in r <==> "DWG REF" in details) && ("DWG REF" in details ==> r["DWG REF"] == details["DWG REF"])
    ensures "LEAD" in r && r["LEAD"] == Str(LeadOf(TaskText(details)))
    ensures r.Keys == details.Keys + {"BUDGET", "LEAD"} + (if RefTokens(TaskText(details)) != [] then {"DWG REF"} else {})
    ensures forall k :: k in details && k !in {"BUDGET", "DWG REF", "LEAD"} ==> r[k] == details[k]
  {
    var text := TaskText(details);
    var refs := RefTokens(text);
    var withBudget := details["BUDGET" := Str(BudgetText(findBudgets(text)))];
    var withRefs := if refs != [] then withBudget["DWG REF" := Str(Join(refs, ", "))] else withBudget;
    withRefs["LEAD" := Str(LeadOf(text))]
  }

  /**
   * A task record after the post-processing of app.py:93-123: BUDGET, DWG
   * REF and LEAD rewritten, then PROPOSED renamed to PROPOSAL on a PLUMBING
   * record; every other field is kept.
   */
  function Refined(details: Dict, findBudgets: BudgetFinder): (r: Dict)
    ensures "BUDGET" in r && r["BUDGET"] == Str(BudgetText(findBudgets(TaskText(details))))
    ensures RefTokens(TaskText(details)) != [] ==> "DWG REF" in r && r["DWG REF"] == Str(Join(RefTokens(TaskText(details)), ", "))
    ensures RefTokens(TaskText(details)) == [] ==>
      ("DWG REF" in r <==> "DWG REF" in details) && ("DWG REF" in details ==> r["DWG REF"] == details["DWG REF"])
    ensures "LEAD" in r && r["LEAD"] == Str(LeadOf(TaskText(details)))
    ensures IsPlumbing(details) ==> "PROPOSED" !in r && "PROPOSAL" in r && r["PROPOSAL"] == Get(details, "PROPOSED", Bool(false))
    ensures !IsPlumbing(details) && "PROPOSED" in details ==> "PROPOSED" in r && r["PROPOSED"] == details["PROPOSED"]
    ensures !IsPlumbing(details) && "PROPOSAL" in details ==> "PROPOSAL" in r && r["PROPOSAL"] == details["PROPOSAL"]
    ensures forall k :: k in details && k !in RewrittenKeys ==> k in r && r[k] == details[k]
  {
    var w := Rewritten(details, findBudgets);
    assert "PROPOSED" !in {"BUDGET", "DWG REF", "LEAD"} && "PROPOSAL" !in {"BUDGET", "DWG REF", "LEAD"};
    assert IsPlumbing(w) == IsPlumbing(details);
    if IsPlumbing(w) then (w - {"PROPOSED"})["PROPOSAL" := Get(w, "PROPOSED", Bool(false))] else w
  }

  /**
   * The fields of a rewritten record: BUDGET and LEAD are always added, DWG
   * REF when the text holds a reference, and a PLUMBING record trades
   * PROPOSED for PROPOSAL; no other field appears or disappears.
   */
  lemma RefinedKeys(details: Dict, findBudgets: BudgetFinder)
    ensures var added := {"BUDGET", "LEAD"} + (if RefTokens(TaskText(details)) != [] then {"DWG REF"} else {});
      Refined(details, findBudgets).Keys ==
        if IsPlumbing(details) then details.Keys - {"PROPOSED"} + added + {"PROPOSAL"} else details.Keys + added
  {
    assert IsPlumbing(Rewritten(details, findBudgets)) == IsPlumbing(details);
  }

  /** The body of the post-processing loop, rewriting one record's fields in turn. */
  method RefineDetails(details: Dict, findBudgets: BudgetFinder) returns (d: Dict)
    ensures d == Refined(details, findBudgets)
  {
    d := details;
    var text := TaskText(d);
    var budget := InferBudget(findBudgets(text));
    d := d["BUDGET" := Str(budget)];
    var refs := RefTokens(text);
    if refs != [] {
      d := d["DWG REF" := Str(Join(refs, ", "))];
    }
    d := d["LEAD" := Str(LeadOf(text))];
    if "CATEGORY" in d && PyEq(d["CATEGORY"], Str("PLUMBING")) {
      var proposed := Get(d, "PROPOSED", Bool(false));
      d := d - {"PROPOSED"};
      d := d["PROPOSAL" := proposed];
    }
  }

  /** The parsed answer: task records in the order the service listed them. */
  class ExtractedData {
    var entries: seq<Entry>

    constructor (entries: seq<Entry>)
      ensures this.entries == entries
    {
      this.entries := entries;
    }

    /** The loop of app.py:93-123: every record is rewritten in place; descriptions and order stay. */
    method PostProcess(findBudgets: BudgetFinder)
      modifies this
      ensures |entries| == |old(entries)|
      ensures forall i :: 0 <= i < |entries| ==>
        entries[i] == Entry(old(entries)[i].task, Refined(old(entries)[i].details, findBudgets))
    {
      for i := 0 to |entries|
        invariant |entries| == |old(entries)|
        invariant forall k :: 0 <= k < i ==>
          entries[k] == Entry(old(entries)[k].task, Refined(old(entries)[k].details, findBudgets))
        invariant forall k :: i <= k < |entries| ==> entries[k] == old(entries)[k]
      {
        var refined := RefineDetails(entries[i].details, findBudgets);
        entries := entries[i := Entry(entries[i].task, refined)];
      }
    }
  }
}
