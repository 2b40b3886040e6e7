/**
 * The completeness checker and refetch loop of `check_and_refetch.py`.
 *
 * Dates are discovered from the names of the `limit_up` directory only. Each date's three
 * category files are classified (missing, corrupt, count equal to zero, or fine); a date with
 * any issue is queued for refetching. After an operator answer of `y` every queued date is
 * fetched again and each category file is overwritten when its fetched list is non-empty.
 */
module CheckRefetch {
  import opened Common
  import opened Snapshots
  import HistoryFetch

  datatype Issue = FileMissing(category: Category) | FileCorrupt(category: Category) | CountZero(category: Category)

  datatype CheckStats = CheckStats(total: nat, toRefetch: nat, alreadyComplete: nat)

  datatype RefetchOutcome = RefetchOutcome(successCount: nat, failCount: nat)

  /**
   * The issue one category file of a date raises, if any. A file that is absent is missing; a
   * file that does not parse, or whose document is not an object (so that `data.get` raises),
   * is corrupt; a `count` equal to 0, with 0 taken when the key is absent, is a zero count.
   * Any other count, negative or not a number, raises no issue.
   */
  function FileIssue(files: Files, c: Category, date: string): (r: Option<Issue>)
    ensures r == Some(FileMissing(c)) <==> (c, FileName(date)) !in files
    ensures r == Some(FileCorrupt(c)) <==>
      (c, FileName(date)) in files && !(files[(c, FileName(date))].Parsed? && files[(c, FileName(date))].doc.JObj?)
    ensures r == Some(CountZero(c)) <==>
      (c, FileName(date)) in files && files[(c, FileName(date))].Parsed? && files[(c, FileName(date))].doc.JObj?
      && EqualsZero(Get(files[(c, FileName(date))].doc.fields, "count", JNum(0.0)))
    ensures r.Some? ==> r.value.category == c
  {
    var key := (c, FileName(date));
    if key !in files then Some(FileMissing(c))
    else
      match files[key]
      case Unparsable => Some(FileCorrupt(c))
      case Parsed(doc) =>
        if !doc.JObj? then Some(FileCorrupt(c))
        else if EqualsZero(Get(doc.fields, "count", JNum(0.0))) then Some(CountZero(c))
        else None
  }

  function Issues(o: Option<Issue>): seq<Issue>
  {
    if o.Some? then [o.value] else []
  }

  /** The issue list of one date: limit_up's, then limit_down's, then explode's. */
  function DateIssues(files: Files, date: string): (r: seq<Issue>)
    ensures |r| <= 3
    ensures r == [] <==> forall c :: FileIssue(files, c, date) == None
    ensures forall i :: 0 <= i < |r| ==> FileIssue(files, r[i].category, date) == Some(r[i])
    ensures forall i, j :: 0 <= i < j < |r| ==> r[i].category != r[j].category
  {
    var r := Issues(FileIssue(files, LimitUp, date)) + Issues(FileIssue(files, LimitDown, date))
      + Issues(FileIssue(files, Explode, date));
    r
  }

  /** Dates named by the `.json` files of `limit_up/`: `filename.replace('.json', '')`. */
  function DiscoveredDates(files: Files): set<string>
  {
    set k | k in files && k.0 == LimitUp && EndsWith(k.1, ".json") :: ReplaceAll(k.1, ".json", "")
  }

  /** Files of the other two categories never add or remove a checked date. */
  lemma DiscoveryIgnoresOtherCategories(files: Files, c: Category, name: string, state: FileState)
    requires c != LimitUp
    ensures DiscoveredDates(files[(c, name) := state]) == DiscoveredDates(files)
    ensures DiscoveredDates(files - {(c, name)}) == DiscoveredDates(files)
  {
    var f1 := files[(c, name) := state];
    var f2 := files - {(c, name)};
    forall d ensures d in DiscoveredDates(f1) <==> d in DiscoveredDates(files) {
      if d in DiscoveredDates(f1) {
        var k :| k in f1 && k.0 == LimitUp && EndsWith(k.1, ".json") && ReplaceAll(k.1, ".json", "") == d;
        assert k in files;
      }
      if d in DiscoveredDates(files) {
        var k :| k in files && k.0 == LimitUp && EndsWith(k.1, ".json") && ReplaceAll(k.1, ".json", "") == d;
        assert k in f1;
      }
    }
    forall d ensures d in DiscoveredDates(f2) <==> d in DiscoveredDates(files) {
      if d in DiscoveredDates(files) {
        var k :| k in files && k.0 == LimitUp && EndsWith(k.1, ".json") && ReplaceAll(k.1, ".json", "") == d;
        assert k in f2;
      }
    }
  }

  /** A `limit_up/<date>.json` file, for a date without a dot, makes that date a checked date. */
  lemma LimitUpFileIsDiscovered(files: Files, date: string)
    requires '.' !in date && (LimitUp, FileName(date)) in files
    ensures date in DiscoveredDates(files)
  {
    StripSuffix(date, ".json");
    FileNameDate(date);
    var k := (LimitUp, FileName(date));
    assert k in files && k.0 == LimitUp && EndsWith(k.1, ".json") && ReplaceAll(k.1, ".json", "") == date;
  }

  /** A date whose issue list is non-empty is queued for refetching. */
  predicate HasIssue(files: Files, date: string)
  {
    DateIssues(files, date) != []
  }

  /** The dates of `dates` with a non-empty issue list, in their order. */
  function Incomplete(files: Files, dates: seq<string>): seq<string>
    decreases |dates|
  {
    if dates == [] then []
    else
      var init := Incomplete(files, dates[..|dates| - 1]);
      var d := dates[|dates| - 1];
      if HasIssue(files, d) then init + [d] else init
  }

  /** The dates of `dates` with an empty issue list. */
  function CompleteCount(files: Files, dates: seq<string>): nat
    decreases |dates|
  {
    if dates == [] then 0
    else CompleteCount(files, dates[..|dates| - 1]) + (if HasIssue(files, dates[|dates| - 1]) then 0 else 1)
  }

  /** Checking one more date queues it when it has an issue and counts it as complete otherwise. */
  lemma CheckStep(files: Files, dates: seq<string>, i: nat)
    requires i < |dates|
    ensures Incomplete(files, dates[..i + 1]) ==
      Incomplete(files, dates[..i]) + (if HasIssue(files, dates[i]) then [dates[i]] else [])
    ensures CompleteCount(files, dates[..i + 1]) ==
      CompleteCount(files, dates[..i]) + (if HasIssue(files, dates[i]) then 0 else 1)
  {
    assert dates[..i + 1][..i] == dates[..i];
  }

  /** A date is queued exactly when it is checked and has an issue; nothing else is queued. */
  lemma {:induction false} IncompleteMembers(files: Files, dates: seq<string>)
    ensures forall d :: d in Incomplete(files, dates) <==> d in dates && HasIssue(files, d)
    ensures |Incomplete(files, dates)| + CompleteCount(files, dates) == |dates|
    decreases |dates|
  {
    if dates != [] {
      var init := dates[..|dates| - 1];
      IncompleteMembers(files, init);
      assert dates == init + [dates[|dates| - 1]];
    }
  }

  /** The queue keeps the checking order: ascending dates give an ascending queue. */
  lemma {:induction false} IncompleteAscending(files: Files, dates: seq<string>)
    requires StrictlyAscending(dates)
    ensures StrictlyAscending(Incomplete(files, dates))
    decreases |dates|
  {
    if dates != [] {
      var init := dates[..|dates| - 1];
      var d := dates[|dates| - 1];
      IncompleteAscending(files, init);
      IncompleteMembers(files, init);
      var q := Incomplete(files, init);
      if HasIssue(files, d) {
        forall i, j | 0 <= i < j < |q + [d]| ensures LexLess((q + [d])[i], (q + [d])[j]) {
          if j == |q| {
            assert q[i] in init;
            var m :| 0 <= m < |init| && init[m] == q[i];
            assert dates[m] == q[i];
          }
        }
      }
    }
  }

  /** The scan of `os.listdir(limit_up_dir)` into the set `dates_with_data`. */
  method DiscoverDates(files: Files) returns (found: set<string>)
    ensures found == DiscoveredDates(files)
  {
    var names := set k | k in files && k.0 == LimitUp :: k.1;
    found := {};
    ghost var seen: set<string> := {};
    while names != {}
      invariant seen * names == {}
      invariant forall n :: n in seen || n in names <==> (LimitUp, n) in files
      invariant found == set k | k in files && k.0 == LimitUp && k.1 in seen && EndsWith(k.1, ".json") :: ReplaceAll(k.1, ".json", "")
      decreases names
    {
      var n :| n in names;
      if EndsWith(n, ".json") {
        found := found + {ReplaceAll(n, ".json", "")};
      }
      names := names - {n};
      seen := seen + {n};
    }
  }

  /** `check_and_refetch_data` up to the prompt: the checked dates, the refetch queue, the tallies. */
  method CheckAll(files: Files) returns (dates: seq<string>, toRefetch: seq<string>, stats: CheckStats)
    ensures StrictlyAscending(dates) && forall d :: d in dates <==> d in DiscoveredDates(files)
    ensures |dates| == |DiscoveredDates(files)|
    ensures toRefetch == Incomplete(files, dates)
    ensures stats.total == |dates| && stats.toRefetch == |toRefetch|
    ensures stats.alreadyComplete == CompleteCount(files, dates)
    ensures stats.total == stats.toRefetch + stats.alreadyComplete
  {
    var found := DiscoverDates(files);
    dates := SortedOf(found);

    toRefetch := [];
    var complete := 0;
    var i := 0;
    while i < |dates|
      invariant 0 <= i <= |dates|
      invariant toRefetch == Incomplete(files, dates[..i])
      invariant complete == CompleteCount(files, dates[..i])
    {
      var date := dates[i];
      CheckStep(files, dates, i);
      if HasIssue(files, date) {
        toRefetch := toRefetch + [date];
      } else {
        complete := complete + 1;
      }
      i := i + 1;
    }
    assert dates[..|dates|] == dates;
    stats := CheckStats(|dates|, |toRefetch|, complete);
    IncompleteMembers(files, dates);
  }

  /** The prompt `input(...).strip().lower() != 'y'` cancels; only this answer proceeds. */
  predicate WantsRefetch(answer: string)
  {
    Lower(Strip(answer)) == "y"
  }

  /** The answer the `--check-only` mode substitutes for the operator's. */
  const CheckOnlyAnswer: string := "n"

  /** Exactly `y` or `Y`, with any surrounding whitespace, starts the refetch. */
  lemma WantsRefetchExactly(answer: string)
    ensures WantsRefetch(answer) <==> Strip(answer) == "y" || Strip(answer) == "Y"
  {
    var t := Strip(answer);
    if WantsRefetch(answer) {
      assert |t| == 1 && LowerChar(t[0]) == 'y';
      assert t == [t[0]];
    }
  }

  lemma CheckOnlyNeverRefetches()
    ensures !WantsRefetch(CheckOnlyAnswer)
  {
    assert Strip(CheckOnlyAnswer) == "n" by {
      StripClean(CheckOnlyAnswer);
    }
    WantsRefetchExactly(CheckOnlyAnswer);
  }

  /** Dates of `dates` whose `limit_up` fetch returns records. */
  function NonEmptyDates(dates: seq<string>, c: Category, fetch: Fetcher): nat
    decreases |dates|
  {
    if dates == [] then 0
    else NonEmptyDates(dates[..|dates| - 1], c, fetch) + (if fetch(c, dates[|dates| - 1]) != [] then 1 else 0)
  }

  lemma {:induction false} NonEmptyDatesBound(dates: seq<string>, c: Category, fetch: Fetcher)
    ensures NonEmptyDates(dates, c, fetch) <= |dates|
    ensures NonEmptyDates(dates, c, fetch) == |dates| <==> forall i :: 0 <= i < |dates| ==> fetch(c, dates[i]) != []
    decreases |dates|
  {
    if dates != [] {
      var init := dates[..|dates| - 1];
      NonEmptyDatesBound(init, c, fetch);
      assert forall i :: 0 <= i < |init| ==> init[i] == dates[i];
    }
  }

  /**
   * `refetch_data`: every date in list order, three category fetches each, a file written only
   * for a non-empty list. Only the `limit_up` fetch moves the success and failure counters.
   */
  method Refetch(store: Store, dates: seq<string>, fetch: Fetcher) returns (outcome: RefetchOutcome)
    modifies store
    ensures store.files == AfterFetch(old(store.files), dates, fetch)
    ensures outcome.successCount == NonEmptyDates(dates, LimitUp, fetch)
    ensures outcome.successCount + outcome.failCount == |dates|
  {
    var successCount, failCount := 0, 0;
    var i := 0;
    while i < |dates|
      invariant 0 <= i <= |dates|
      invariant store.files == AfterFetch(old(store.files), dates[..i], fetch)
      invariant successCount == NonEmptyDates(dates[..i], LimitUp, fetch)
      invariant successCount + failCount == i
    {
      var date := dates[i];
      assert dates[..i + 1][..i] == dates[..i];
      var limitUp, _, _ := HistoryFetch.FetchOneDate(store, date, fetch);
      if limitUp != [] {
        successCount := successCount + 1;
      } else {
        failCount := failCount + 1;
      }
      i := i + 1;
    }
    assert dates[..|dates|] == dates;
    outcome := RefetchOutcome(successCount, failCount);
  }

  /**
   * `check_and_refetch_data` as a whole: the check, then the refetch of the queue when it is
   * non-empty and the answer is `y`; otherwise the store is left as it was.
   */
  method CheckAndRefetch(store: Store, answer: string, fetch: Fetcher)
    returns (toRefetch: seq<string>, stats: CheckStats, refetched: Option<RefetchOutcome>)
    modifies store
    ensures forall d :: d in toRefetch <==> d in DiscoveredDates(old(store.files)) && HasIssue(old(store.files), d)
    ensures StrictlyAscending(toRefetch)
    ensures stats.total == |DiscoveredDates(old(store.files))| && stats.toRefetch == |toRefetch|
    ensures stats.total == stats.toRefetch + stats.alreadyComplete
    ensures refetched.Some? <==> toRefetch != [] && WantsRefetch(answer)
    ensures refetched.Some? ==> store.files == AfterFetch(old(store.files), toRefetch, fetch)
    ensures refetched.None? ==> store.files == old(store.files)
  {
    var dates;
    dates, toRefetch, stats := CheckAll(store.files);
    IncompleteMembers(store.files, dates);
    IncompleteAscending(store.files, dates);
    refetched := None;
    if toRefetch != [] && WantsRefetch(answer) {
      var outcome := Refetch(store, toRefetch, fetch);
      refetched := Some(outcome);
    }
  }

  /**
   * `check_specific_date`: for each category, `count > 0` is evaluated first (which raises for
   * a count that is neither a number nor a boolean) and a count equal to 0 fails the date; a
   * missing or corrupt file fails it too. A negative count does not.
   */
  predicate SpecificFileOk(files: Files, c: Category, date: string)
  {
    var key := (c, FileName(date));
    key in files && files[key].Parsed? && files[key].doc.JObj?
    && var count := Get(files[key].doc.fields, "count", JNum(0.0));
       (count.JNum? || count.JBool?) && !EqualsZero(count)
  }

  method CheckSpecificDate(files: Files, date: string) returns (allOk: bool)
    ensures allOk <==> forall c :: SpecificFileOk(files, c, date)
  {
    allOk := true;
    for i := 0 to |Categories|
      invariant allOk <==> forall j :: 0 <= j < i ==> SpecificFileOk(files, Categories[j], date)
    {
      var key := (Categories[i], FileName(date));
      if key in files {
        match files[key]
        case Unparsable =>
          allOk := false;
        case Parsed(doc) =>
          if !doc.JObj? {
            allOk := false;
          } else {
            var count := Get(doc.fields, "count", JNum(0.0));
            if !(count.JNum? || count.JBool?) {
              allOk := false;
            } else if EqualsZero(count) {
              allOk := false;
            }
          }
      } else {
        allOk := false;
      }
    }
    if allOk {
      forall c ensures SpecificFileOk(files, c, date) {
        assert c == Categories[0] || c == Categories[1] || c == Categories[2];
      }
    }
  }

  /**
   * The single-date check and the batch check agree except on a count that is neither a
   * number nor a boolean: such a file fails the single-date check and raises no issue in the batch.
   */
  lemma SpecificAgreesWithIssues(files: Files, c: Category, date: string)
    ensures SpecificFileOk(files, c, date) ==> FileIssue(files, c, date) == None
    ensures FileIssue(files, c, date) == None ==>
      var count := Get(files[(c, FileName(date))].doc.fields, "count", JNum(0.0));
      (SpecificFileOk(files, c, date) <==> count.JNum? || count.JBool?)
  {
  }
}
