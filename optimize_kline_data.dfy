/**
 * The k-line optimiser of `optimize_kline_data.py`: the stock-code normaliser, the collection
 * of every code that ever hit limit-up from the `limit_up` snapshots, the selection of the
 * k-line files of those codes, and the merge of the selected files into one code-keyed map.
 */
module OptimizeKline {
  import opened Common
  import opened Snapshots

  // ---------------------------------------------------------------- normalize_code

  /** The exchange suffix the first digit of a six-character code selects, if any. */
  function SuffixOf(prefix: string): Option<string>
    requires prefix != []
  {
    if prefix[0] == '6' then Some(".SH")
    else if prefix[0] == '0' || prefix[0] == '3' then Some(".SZ")
    else if prefix[0] == '4' || prefix[0] == '8' then Some(".BJ")
    else None
  }

  /**
   * `normalize_code`: the code with its dots removed, cut to six characters and given the
   * exchange suffix; the input unchanged (dots included) when it is empty, shorter than six
   * characters without its dots, or starts with a digit no exchange claims.
   */
  function NormalizeCode(code: string): (r: string)
    ensures code == "" ==> r == ""
    ensures var clean := ReplaceAll(code, ".", "");
      if |clean| >= 6 && SuffixOf(clean[..6]).Some? then r == clean[..6] + SuffixOf(clean[..6]).value
      else r == code
  {
    if code == "" then code
    else
      var clean := ReplaceAll(code, ".", "");
      if |clean| >= 6 then
        var prefix := clean[..6];
        if prefix[0] == '6' then prefix + ".SH"
        else if prefix[0] == '0' || prefix[0] == '3' then prefix + ".SZ"
        else if prefix[0] == '4' || prefix[0] == '8' then prefix + ".BJ"
        else code
      else code
  }

  /** A changed code is nine characters: six dot-free characters and one of the three suffixes. */
  lemma NormalizedShape(code: string)
    ensures var r := NormalizeCode(code);
      r != code ==> |r| == 9 && '.' !in r[..6] && r[6..] in {".SH", ".SZ", ".BJ"} && SuffixOf(r[..6]) == Some(r[6..])
  {
    ReplaceCharRemoves(code, '.', "");
    var r := NormalizeCode(code);
    if r != code {
      var clean := ReplaceAll(code, ".", "");
      assert r[..6] == clean[..6];
      assert forall i :: 0 <= i < 6 ==> r[i] == clean[i];
    }
  }

  /** `normalize_code` is idempotent. */
  lemma NormalizeIdempotent(code: string)
    ensures NormalizeCode(NormalizeCode(code)) == NormalizeCode(code)
  {
    var r := NormalizeCode(code);
    if r != code {
      NormalizedShape(code);
      var p, suffix := r[..6], r[6..];
      assert r == p + suffix;
      assert suffix[0] == '.';
      ReplaceAllSkipsPrefix(p, suffix, ".", "");
      assert suffix == "." + suffix[1..];
      ReplaceAllFree(suffix[1..], ".", "");
      assert ReplaceAll(suffix, ".", "") == suffix[1..];
      var clean := ReplaceAll(r, ".", "");
      assert clean == p + suffix[1..];
      assert clean[..6] == p;
    }
  }

  // ---------------------------------------------------------------- collect_limit_up_codes

  /** What one record of a snapshot does in the collection loop. */
  datatype Step = Abort | Skip | Add(code: string)

  /**
   * `code = stock.get('dm', '')`: a falsy code is skipped; a record that is not an object, or
   * a truthy code that is not a string, raises and abandons the rest of the file.
   */
  function StockStep(stock: Json): (s: Step)
    ensures s.Add? ==> s.code != ""
  {
    if !stock.JObj? then Abort
    else
      var dm := Get(stock.fields, "dm", JStr(""));
      if !Truthy(dm) then Skip
      else if dm.JStr? then Add(dm.s)
      else Abort
  }

  /** The codes one file's records contribute, up to the first record that raises. */
  function StockCodes(stocks: seq<Json>): seq<string>
  {
    if stocks == [] then []
    else
      match StockStep(stocks[0])
      case Abort => []
      case Skip => StockCodes(stocks[1..])
      case Add(c) => [NormalizeCode(c)] + StockCodes(stocks[1..])
  }

  /**
   * The records of one parsed snapshot: `data['data']` of an object that has it, the document
   * itself when it is a list, nothing otherwise. Iterating anything but a list either yields
   * nothing or yields strings, whose `.get` raises before a code is added.
   */
  function DocStocks(doc: Json): seq<Json>
  {
    var stocks := if doc.JObj? && "data" in doc.fields then doc.fields["data"] else doc;
    if stocks.JArr? then stocks.items else []
  }

  /** The codes one `limit_up` file contributes; a file that does not parse contributes none. */
  function FileCodes(state: FileState): seq<string>
  {
    if state.Parsed? then StockCodes(DocStocks(state.doc)) else []
  }

  /** The codes contributed by the `limit_up` files named in `names`. */
  function CodesOf(files: Files, names: set<string>): set<string>
  {
    set n, c | n in names && (LimitUp, n) in files && c in FileCodes(files[(LimitUp, n)]) :: c
  }

  /** The `.json` names of `limit_up/`. */
  function LimitUpJsonNames(files: Files): set<string>
  {
    set k | k in files && k.0 == LimitUp && EndsWith(k.1, ".json") :: k.1
  }

  /** The inner loop over one file's records, stopping where a record raises. */
  method ReadStocks(stocks: seq<Json>) returns (codes: seq<string>)
    ensures codes == StockCodes(stocks)
  {
    codes := [];
    var i := 0;
    while i < |stocks|
      invariant 0 <= i <= |stocks|
      invariant StockCodes(stocks) == codes + StockCodes(stocks[i..])
    {
      assert stocks[i..] == [stocks[i]] + stocks[i + 1..];
      var step := StockStep(stocks[i]);
      if step.Abort? {
        return;
      } else if step.Add? {
        codes := codes + [NormalizeCode(step.code)];
      }
      i := i + 1;
    }
  }

  lemma CodesOfAdd(files: Files, seen: set<string>, n: string)
    requires (LimitUp, n) in files
    ensures CodesOf(files, seen + {n}) == CodesOf(files, seen) + set c | c in FileCodes(files[(LimitUp, n)])
  {
    forall c | c in CodesOf(files, seen + {n})
      ensures c in CodesOf(files, seen) || c in FileCodes(files[(LimitUp, n)])
    {
      var m :| m in seen + {n} && (LimitUp, m) in files && c in FileCodes(files[(LimitUp, m)]);
    }
  }

  /** `collect_limit_up_codes` over the `limit_up` directory of the store. */
  method CollectCodes(files: Files) returns (codes: set<string>)
    ensures codes == CodesOf(files, LimitUpJsonNames(files))
  {
    var names := LimitUpJsonNames(files);
    codes := {};
    ghost var seen: set<string> := {};
    while names != {}
      invariant names * seen == {} && names + seen == LimitUpJsonNames(files)
      invariant codes == CodesOf(files, seen)
      decreases names
    {
      var n :| n in names;
      assert (LimitUp, n) in files;
      var fileCodes: seq<string> := [];
      var state := files[(LimitUp, n)];
      if state.Parsed? {
        fileCodes := ReadStocks(DocStocks(state.doc));
      }
      CodesOfAdd(files, seen, n);
      codes := codes + set c | c in fileCodes;
      names := names - {n};
      seen := seen + {n};
    }
  }

  /** Every code one file contributes is the normal form of a non-empty `dm`, and that normal form is a fixed point. */
  lemma {:induction false} StockCodesNormalized(stocks: seq<Json>)
    ensures forall c :: c in StockCodes(stocks) ==> NormalizeCode(c) == c
    ensures forall c :: c in StockCodes(stocks) ==> exists i :: 0 <= i < |stocks| && StockStep(stocks[i]).Add? && NormalizeCode(StockStep(stocks[i]).code) == c
  {
    if stocks != [] {
      StockCodesNormalized(stocks[1..]);
      var step := StockStep(stocks[0]);
      if step.Add? {
        NormalizeIdempotent(step.code);
      }
      forall c | c in StockCodes(stocks)
        ensures exists i :: 0 <= i < |stocks| && StockStep(stocks[i]).Add? && NormalizeCode(StockStep(stocks[i]).code) == c
      {
        if step.Add? && c == NormalizeCode(step.code) {
          assert StockStep(stocks[0]).Add?;
        } else {
          assert c in StockCodes(stocks[1..]);
          var i :| 0 <= i < |stocks[1..]| && StockStep(stocks[1..][i]).Add? && NormalizeCode(StockStep(stocks[1..][i]).code) == c;
          assert stocks[i + 1] == stocks[1..][i];
        }
      }
    }
  }

  /** Every collected code is a normalised code: collecting and normalising again changes nothing. */
  lemma CollectedCodesNormalized(files: Files, c: string)
    requires c in CodesOf(files, LimitUpJsonNames(files))
    ensures NormalizeCode(c) == c && c != ""
  {
    var n :| n in LimitUpJsonNames(files) && (LimitUp, n) in files && c in FileCodes(files[(LimitUp, n)]);
    var state := files[(LimitUp, n)];
    StockCodesNormalized(DocStocks(state.doc));
    var stocks := DocStocks(state.doc);
    var i :| 0 <= i < |stocks| && StockStep(stocks[i]).Add? && NormalizeCode(StockStep(stocks[i]).code) == c;
    assert StockStep(stocks[i]).code != "";
    if c == "" {
      var s := StockStep(stocks[i]).code;
      assert NormalizeCode(s) == s || |NormalizeCode(s)| == 9 by {
        NormalizedShape(s);
      }
    }
  }

  lemma SkipsNonListDocuments(state: FileState)
    requires state.Parsed? && !state.doc.JArr? && !(state.doc.JObj? && "data" in state.doc.fields)
    ensures FileCodes(state) == []
  {
  }

  // ---------------------------------------------------------------- filter_kline_files

  /** File names in the k-line directory that are not per-stock k-lines. */
  predicate IsListingFile(name: string)
  {
    name == "stock_list.csv" || name == "failed_stocks.csv" || name == "all_stocks_kline.csv"
  }

  predicate IsKlineCsv(name: string)
  {
    EndsWith(name, ".csv") && !IsListingFile(name)
  }

  /** The `csv_files` comprehension, in directory-listing order. */
  function CsvFiles(listing: seq<string>): (csv: seq<string>)
    ensures forall f :: f in csv <==> f in listing && IsKlineCsv(f)
    ensures |csv| <= |listing|
  {
    if listing == [] then []
    else (if IsKlineCsv(listing[0]) then [listing[0]] else []) + CsvFiles(listing[1..])
  }

  /** `filename.replace('.csv', '').replace('_', '.')`: the code a k-line file name stands for. */
  function CodeOfFileName(name: string): string
  {
    ReplaceAll(ReplaceAll(name, ".csv", ""), "_", ".")
  }

  /** The code a k-line file is selected and merged under. */
  function FileCode(name: string): string
  {
    NormalizeCode(CodeOfFileName(name))
  }

  /** The files of `csv` whose code is in `codes`, in order. */
  function Kept(csv: seq<string>, codes: set<string>): seq<string>
    decreases |csv|
  {
    if csv == [] then []
    else
      var init := Kept(csv[..|csv| - 1], codes);
      var f := csv[|csv| - 1];
      if FileCode(f) in codes then init + [f] else init
  }

  lemma {:induction false} KeptMembers(csv: seq<string>, codes: set<string>)
    ensures forall f :: f in Kept(csv, codes) <==> f in csv && FileCode(f) in codes
    ensures |Kept(csv, codes)| <= |csv|
    decreases |csv|
  {
    if csv != [] {
      KeptMembers(csv[..|csv| - 1], codes);
      assert csv == csv[..|csv| - 1] + [csv[|csv| - 1]];
    }
  }

  /** `a` is `b` with some elements left out, the rest in the same order. */
  predicate Subsequence<T(==)>(a: seq<T>, b: seq<T>)
    decreases |b|
  {
    if a == [] then true
    else if b == [] then false
    else if a[|a| - 1] == b[|b| - 1] then Subsequence(a[..|a| - 1], b[..|b| - 1])
    else Subsequence(a, b[..|b| - 1])
  }

  lemma {:induction false} KeptIsSubsequence(csv: seq<string>, codes: set<string>)
    ensures Subsequence(Kept(csv, codes), csv)
    decreases |csv|
  {
    if csv != [] {
      var init := csv[..|csv| - 1];
      KeptIsSubsequence(init, codes);
      var k := Kept(csv, codes);
      if FileCode(csv[|csv| - 1]) in codes {
        assert k[..|k| - 1] == Kept(init, codes);
      } else {
        SubsequenceExtend(k, init, csv[|csv| - 1]);
        assert init + [csv[|csv| - 1]] == csv;
      }
    }
  }

  lemma {:induction false} SubsequenceExtend<T>(a: seq<T>, b: seq<T>, x: T)
    requires Subsequence(a, b)
    ensures Subsequence(a, b + [x])
    decreases |b|, 1
  {
    assert (b + [x])[..|b|] == b;
    if a != [] && a[|a| - 1] == x {
      SubsequenceDropLast(a, b);
    }
  }

  lemma {:induction false} SubsequenceDropLast<T>(a: seq<T>, b: seq<T>)
    requires Subsequence(a, b) && a != []
    ensures Subsequence(a[..|a| - 1], b)
    decreases |b|, 0
  {
    if b == [] {
      assert false;
    } else if a[|a| - 1] == b[|b| - 1] {
      SubsequenceExtend(a[..|a| - 1], b[..|b| - 1], b[|b| - 1]);
      assert b[..|b| - 1] + [b[|b| - 1]] == b;
    } else {
      SubsequenceDropLast(a, b[..|b| - 1]);
      SubsequenceExtend(a[..|a| - 1], b[..|b| - 1], b[|b| - 1]);
      assert b[..|b| - 1] + [b[|b| - 1]] == b;
    }
  }

  /**
   * `filter_kline_files`: the k-line files, in listing order, whose normalised code was
   * collected; every other k-line file is only counted (none is removed).
   */
  method FilterKlineFiles(listing: seq<string>, codes: set<string>) returns (kept: seq<string>, deletedCount: nat)
    ensures kept == Kept(CsvFiles(listing), codes)
    ensures |kept| + deletedCount == |CsvFiles(listing)|
  {
    var csvFiles := CsvFiles(listing);
    kept := [];
    deletedCount := 0;
    var i := 0;
    while i < |csvFiles|
      invariant 0 <= i <= |csvFiles|
      invariant kept == Kept(csvFiles[..i], codes)
      invariant |kept| + deletedCount == i
    {
      assert csvFiles[..i + 1][..i] == csvFiles[..i];
      var stockCode := FileCode(csvFiles[i]);
      if stockCode in codes {
        kept := kept + [csvFiles[i]];
      } else {
        deletedCount := deletedCount + 1;
      }
      i := i + 1;
    }
    assert csvFiles[..|csvFiles|] == csvFiles;
  }

  /** A file is kept exactly when it is a per-stock k-line file whose code was collected; the listing files never are. */
  lemma KeptExactly(listing: seq<string>, codes: set<string>, f: string)
    ensures f in Kept(CsvFiles(listing), codes) <==> f in listing && IsKlineCsv(f) && FileCode(f) in codes
    ensures IsListingFile(f) ==> f !in Kept(CsvFiles(listing), codes)
  {
    KeptMembers(CsvFiles(listing), codes);
  }

  // ---------------------------------------------------------------- merge_to_json

  /** `merged_data`: for each code, the rows of the last kept file of that code that loaded any. */
  function Merged(kept: seq<string>, load: string -> seq<Json>): map<string, seq<Json>>
    decreases |kept|
  {
    if kept == [] then map[]
    else
      var m := Merged(kept[..|kept| - 1], load);
      var f := kept[|kept| - 1];
      if load(f) != [] then m[FileCode(f) := load(f)] else m
  }

  /** `total_records`: the rows of every kept file that loaded any. */
  function TotalRecords(kept: seq<string>, load: string -> seq<Json>): nat
    decreases |kept|
  {
    if kept == [] then 0 else TotalRecords(kept[..|kept| - 1], load) + |load(kept[|kept| - 1])|
  }

  /** The merge loop of `merge_to_json`, with the rows of each file given by `load`. */
  method MergeKlines(kept: seq<string>, load: string -> seq<Json>) returns (merged: map<string, seq<Json>>, totalRecords: nat)
    ensures merged == Merged(kept, load) && totalRecords == TotalRecords(kept, load)
  {
    merged := map[];
    totalRecords := 0;
    for i := 0 to |kept|
      invariant merged == Merged(kept[..i], load) && totalRecords == TotalRecords(kept[..i], load)
    {
      assert kept[..i + 1][..i] == kept[..i];
      var stockCodeNormalized := FileCode(kept[i]);
      var kline := load(kept[i]);
      if kline != [] {
        merged := merged[stockCodeNormalized := kline];
        totalRecords := totalRecords + |kline|;
      }
    }
    assert kept[..|kept|] == kept;
  }

  /** The position of the last kept file of `code` that loaded rows, or -1 when there is none. */
  function LastLoaded(kept: seq<string>, load: string -> seq<Json>, code: string): (r: int)
    ensures -1 <= r < |kept|
    decreases |kept|
  {
    if kept == [] then -1
    else if FileCode(kept[|kept| - 1]) == code && load(kept[|kept| - 1]) != [] then |kept| - 1
    else LastLoaded(kept[..|kept| - 1], load, code)
  }

  lemma {:induction false} LastLoadedIsLast(kept: seq<string>, load: string -> seq<Json>, code: string)
    ensures var r := LastLoaded(kept, load, code);
      (r >= 0 ==> FileCode(kept[r]) == code && load(kept[r]) != [])
      && forall j :: r < j < |kept| && FileCode(kept[j]) == code ==> load(kept[j]) == []
    decreases |kept|
  {
    if kept != [] {
      var init := kept[..|kept| - 1];
      LastLoadedIsLast(init, load, code);
      assert forall i :: 0 <= i < |init| ==> init[i] == kept[i];
    }
  }

  /**
   * A code is in the merged map exactly when some kept file of that code loaded rows, and its
   * entry is the rows of the last such file: a later file overwrites an earlier one.
   */
  lemma {:induction false} MergedEntries(kept: seq<string>, load: string -> seq<Json>, code: string)
    ensures code in Merged(kept, load) <==> LastLoaded(kept, load, code) >= 0
    ensures code in Merged(kept, load) ==> Merged(kept, load)[code] == load(kept[LastLoaded(kept, load, code)])
    decreases |kept|
  {
    if kept != [] {
      var init := kept[..|kept| - 1];
      MergedEntries(init, load, code);
      var r := LastLoaded(init, load, code);
      if r >= 0 {
        assert kept[r] == init[r];
      }
    }
  }

  /** Every merged entry holds rows. */
  lemma MergedNonEmpty(kept: seq<string>, load: string -> seq<Json>, code: string)
    requires code in Merged(kept, load)
    ensures Merged(kept, load)[code] != []
  {
    MergedEntries(kept, load, code);
    LastLoadedIsLast(kept, load, code);
  }

  /** Two kept files of one code: the merged map keeps the later rows while the total counts both. */
  lemma DuplicateCodeCountedTwice(f: string, g: string, load: string -> seq<Json>)
    requires FileCode(f) == FileCode(g) && load(f) != [] && load(g) != []
    ensures Merged([f, g], load) == map[FileCode(g) := load(g)]
    ensures TotalRecords([f, g], load) == |load(f)| + |load(g)| > |load(g)|
  {
    assert [f, g][..1] == [f];
    assert [f][..0] == [];
    assert Merged([f], load) == map[FileCode(f) := load(f)];
    assert TotalRecords([f], load) == |load(f)|;
  }
}
