/**
 * The per-stock logic of `fetch_kline_all.py`: the stock list with its exchange suffixes and
 * boards, the request for one stock's daily k-lines, the throttling wait, the file a
 * stock is saved under, the choice of stocks an incremental update fetches, and the merge
 * of a stock's stored rows with the fetched ones.
 */
module KlineAll {
  import opened Common
  import OptimizeKline
  import DataFetcher

  // ---------------------------------------------------------------- get_all_stocks

  /** Python's `s.zfill(width)`: zeros on the left, after a leading sign, up to `width` characters. */
  function ZFill(s: string, width: nat): (r: string)
    ensures |s| >= width ==> r == s
    ensures |s| < width ==> |r| == width
    ensures |s| < width && (s == [] || (s[0] != '+' && s[0] != '-')) ==>
      r[width - |s|..] == s && forall i :: 0 <= i < width - |s| ==> r[i] == '0'
    ensures |s| < width && s != [] && (s[0] == '+' || s[0] == '-') ==>
      r[0] == s[0] && r[width - |s| + 1..] == s[1..] && forall i :: 1 <= i <= width - |s| ==> r[i] == '0'
  {
    if |s| >= width then s
    else if s != [] && (s[0] == '+' || s[0] == '-') then [s[0]] + seq(width - |s|, _ => '0') + s[1..]
    else seq(width - |s|, _ => '0') + s
  }

  /** The boards the stock list names. */
  datatype Market = StarMarket | ShanghaiMain | ChiNext | ShenzhenMain | Beijing | Other

  /** The board's label as the stock list writes it. */
  function MarketLabel(m: Market): string
  {
    match m
    case StarMarket => "科创板"
    case ShanghaiMain => "沪市主板"
    case ChiNext => "创业板"
    case ShenzhenMain => "深市主板"
    case Beijing => "北交所"
    case Other => "其他"
  }

  /** One row of the stock list. */
  datatype Listed = Listed(code: string, name: string, market: Market)

  /**
   * The suffixed code and board of a zero-padded code: 6 is Shanghai (688 the STAR Market),
   * 0 and 3 Shenzhen (300 ChiNext, 000 and 001 the main board, the rest "other"), 4 and 8
   * Beijing; any other code is kept bare under "other".
   */
  function Classify(code: string, name: string): Listed
  {
    if StartsWith(code, "6") then
      Listed(code + ".SH", name, if StartsWith(code, "688") then StarMarket else ShanghaiMain)
    else if StartsWith(code, "0") || StartsWith(code, "3") then
      Listed(code + ".SZ", name,
        if StartsWith(code, "300") then ChiNext
        else if StartsWith(code, "000") || StartsWith(code, "001") then ShenzhenMain
        else Other)
    else if StartsWith(code, "4") || StartsWith(code, "8") then Listed(code + ".BJ", name, Beijing)
    else Listed(code, name, Other)
  }

  /** The suffix a classification appends agrees with its board. */
  lemma ClassifySuffixMatchesBoard(code: string, name: string)
    ensures var e := Classify(code, name);
      |e.code| >= |code| && e.code[..|code|] == code
      && var suffix := e.code[|code|..];
      (suffix == ".SH" <==> e.market == StarMarket || e.market == ShanghaiMain)
      && (e.market == ChiNext || e.market == ShenzhenMain ==> suffix == ".SZ")
      && (suffix == ".BJ" <==> e.market == Beijing)
      && (suffix == "" ==> e.market == Other)
      && suffix in {".SH", ".SZ", ".BJ", ""}
  {
    var e := Classify(code, name);
    assert e.code[..|code|] == code;
  }

  /** The listing's table, prefix by prefix: the suffixed code and the board each prefix gets. */
  lemma ClassifyByPrefix(code: string, name: string)
    ensures StartsWith(code, "688") ==> Classify(code, name) == Listed(code + ".SH", name, StarMarket)
    ensures StartsWith(code, "6") && !StartsWith(code, "688") ==>
      Classify(code, name) == Listed(code + ".SH", name, ShanghaiMain)
    ensures StartsWith(code, "300") ==> Classify(code, name) == Listed(code + ".SZ", name, ChiNext)
    ensures StartsWith(code, "000") || StartsWith(code, "001") ==>
      Classify(code, name) == Listed(code + ".SZ", name, ShenzhenMain)
    ensures (StartsWith(code, "0") || StartsWith(code, "3")) && !(StartsWith(code, "300") || StartsWith(code, "000") || StartsWith(code, "001")) ==>
      Classify(code, name) == Listed(code + ".SZ", name, Other)
    ensures StartsWith(code, "4") || StartsWith(code, "8") ==> Classify(code, name) == Listed(code + ".BJ", name, Beijing)
    ensures !(StartsWith(code, "6") || StartsWith(code, "0") || StartsWith(code, "3") || StartsWith(code, "4") || StartsWith(code, "8")) ==>
      Classify(code, name) == Listed(code, name, Other)
  {
    if StartsWith(code, "688") { PrefixHead(code, "688"); }
    if StartsWith(code, "300") { PrefixHead(code, "300"); }
    if StartsWith(code, "000") { PrefixHead(code, "000"); }
    if StartsWith(code, "001") { PrefixHead(code, "001"); }
  }

  /** A code with a prefix starts with the prefix's first character. */
  lemma PrefixHead(code: string, p: string)
    requires p != [] && StartsWith(code, p)
    ensures code[0] == p[0] && StartsWith(code, [p[0]])
  {
    assert code[..1] == p[..1];
  }

  /** A plain six-digit code gets the same suffix here, in the East Money parser and in `normalize_code`. */
  lemma ClassifyAgreesWithNormalize(code: string, name: string)
    requires |code| == 6 && '.' !in code
    ensures Classify(code, name).code == OptimizeKline.NormalizeCode(code)
    ensures Classify(code, name).code == DataFetcher.FullCode(DataFetcher.EmPool, code)
  {
    DataFetcher.EmAgreesWithNormalize(code);
  }

  /** A code the listing gave without its leading zeros is padded back to a Shenzhen code; three digits or fewer land on the main board. */
  lemma ShortCodeIsShenzhen(raw: string, name: string)
    requires 0 < |raw| < 6 && raw[0] != '+' && raw[0] != '-'
    ensures Classify(ZFill(raw, 6), name).code == ZFill(raw, 6) + ".SZ"
    ensures |raw| <= 3 ==> Classify(ZFill(raw, 6), name).market == ShenzhenMain
  {
    var z := ZFill(raw, 6);
    assert z[0] == '0';
    assert !StartsWith(z, "6") && StartsWith(z, "0");
    if |raw| <= 3 {
      assert z[1] == '0' && z[2] == '0';
      assert z[..3] == "000";
    }
  }

  /** The stock list before de-duplication, in listing order. */
  function ClassifyAll(rows: seq<(string, string)>): seq<Listed>
    decreases |rows|
  {
    if rows == [] then []
    else ClassifyAll(rows[..|rows| - 1]) + [Classify(ZFill(rows[|rows| - 1].0, 6), rows[|rows| - 1].1)]
  }

  /** Whether an entry before position `i` has the same code as entry `i`. */
  predicate SeenBefore(xs: seq<Listed>, i: int)
    requires 0 <= i < |xs|
  {
    exists j :: 0 <= j < i && xs[j].code == xs[i].code
  }

  /** `drop_duplicates(subset=['code'])`: the first entry of each code, in order. */
  function DedupeFirst(xs: seq<Listed>): seq<Listed>
    decreases |xs|
  {
    if xs == [] then []
    else DedupeFirst(xs[..|xs| - 1]) + (if SeenBefore(xs, |xs| - 1) then [] else [xs[|xs| - 1]])
  }

  predicate UniqueCodes(xs: seq<Listed>)
  {
    forall i, j :: 0 <= i < j < |xs| ==> xs[i].code != xs[j].code
  }

  /** The de-duplicated list keeps exactly the entries no earlier entry shares a code with. */
  lemma {:induction false} DedupeFirstMembers(xs: seq<Listed>)
    ensures forall x :: x in DedupeFirst(xs) <==> exists i :: 0 <= i < |xs| && xs[i] == x && !SeenBefore(xs, i)
    decreases |xs|
  {
    if xs != [] {
      var n := |xs| - 1;
      var init := xs[..n];
      DedupeFirstMembers(init);
      assert forall i :: 0 <= i < n ==> init[i] == xs[i];
      assert forall i :: 0 <= i < n ==> (SeenBefore(init, i) <==> SeenBefore(xs, i));
    }
  }

  /** The de-duplicated list has unique codes. */
  lemma {:induction false} DedupeFirstUnique(xs: seq<Listed>)
    ensures UniqueCodes(DedupeFirst(xs))
    decreases |xs|
  {
    if xs != [] {
      var n := |xs| - 1;
      var init := xs[..n];
      DedupeFirstUnique(init);
      DedupeFirstMembers(init);
      var d := DedupeFirst(init);
      if !SeenBefore(xs, n) {
        forall i | 0 <= i < |d|
          ensures d[i].code != xs[n].code
        {
          assert d[i] in d;
          var k :| 0 <= k < n && init[k] == d[i] && !SeenBefore(init, k);
          assert xs[k] == d[i];
        }
      }
    }
  }

  /** No code is lost. */
  lemma {:induction false} DedupeFirstCovers(xs: seq<Listed>)
    ensures forall i :: 0 <= i < |xs| ==> exists y :: y in DedupeFirst(xs) && y.code == xs[i].code
    decreases |xs|
  {
    if xs != [] {
      var n := |xs| - 1;
      var init := xs[..n];
      DedupeFirstCovers(init);
      forall i | 0 <= i < |xs|
        ensures exists y :: y in DedupeFirst(xs) && y.code == xs[i].code
      {
        var j := i;
        if i == n && SeenBefore(xs, n) {
          j :| 0 <= j < n && xs[j].code == xs[n].code;
        }
        if j < n {
          assert init[j] == xs[j];
          var y :| y in DedupeFirst(init) && y.code == init[j].code;
          assert y in DedupeFirst(xs);
        } else {
          assert xs[n] in DedupeFirst(xs);
        }
      }
    }
  }

  /** `get_all_stocks`: `None` stands for a listing request that raises, which yields the empty frame. */
  method GetAllStocks(listing: Option<seq<(string, string)>>) returns (stocks: seq<Listed>)
    ensures listing.None? ==> stocks == []
    ensures listing.Some? ==> stocks == DedupeFirst(ClassifyAll(listing.value))
    ensures UniqueCodes(stocks)
  {
    if listing.None? {
      return [];
    }
    var rows := listing.value;
    var allStocks: seq<Listed> := [];
    for i := 0 to |rows|
      invariant allStocks == ClassifyAll(rows[..i])
    {
      assert rows[..i + 1][..i] == rows[..i];
      var code := ZFill(rows[i].0, 6);
      allStocks := allStocks + [Classify(code, rows[i].1)];
    }
    assert rows[..|rows|] == rows;
    stocks := DedupeFirst(allStocks);
    DedupeFirstUnique(allStocks);
  }

  // ---------------------------------------------------------------- fetch_stock_kline

  /** `code.replace('.SH', '').replace('.SZ', '').replace('.BJ', '')`: the symbol the k-line request takes. */
  function CleanCode(code: string): string
  {
    ReplaceAll(ReplaceAll(ReplaceAll(code, ".SH", ""), ".SZ", ""), ".BJ", "")
  }

  /** Removing one three-character suffix pattern leaves a different suffix of the same shape alone. */
  lemma OtherSuffixKept(code: string, suffix: string, pat: string)
    requires '.' !in code && |suffix| == 3 && |pat| == 3 && suffix[0] == '.' && pat[0] == '.'
    requires suffix != pat && '.' !in suffix[1..]
    ensures ReplaceAll(code + suffix, pat, "") == code + suffix
  {
    ReplaceAllSkipsPrefix(code, suffix, pat, "");
    assert suffix[..3] == suffix;
    ReplaceAllFree(suffix[1..], pat, "");
    assert [suffix[0]] + suffix[1..] == suffix;
  }

  /** Cleaning a classified six-digit code gives back the padded code. */
  lemma CleanCodeInvertsClassify(code: string, name: string)
    requires |code| == 6 && '.' !in code
    ensures CleanCode(Classify(code, name).code) == code
  {
    var full := Classify(code, name).code;
    if full == code + ".SH" {
      StripSuffix(code, ".SH");
      ReplaceAllFree(code, ".SZ", "");
      ReplaceAllFree(code, ".BJ", "");
    } else if full == code + ".SZ" {
      OtherSuffixKept(code, ".SZ", ".SH");
      StripSuffix(code, ".SZ");
      ReplaceAllFree(code, ".BJ", "");
    } else if full == code + ".BJ" {
      OtherSuffixKept(code, ".BJ", ".SH");
      OtherSuffixKept(code, ".BJ", ".SZ");
      StripSuffix(code, ".BJ");
    } else {
      assert full == code;
      ReplaceAllFree(code, ".SH", "");
      ReplaceAllFree(code, ".SZ", "");
      ReplaceAllFree(code, ".BJ", "");
    }
  }

  /** One daily k-line row; its date as a day number. */
  datatype KlineRow = KlineRow(date: int, fields: map<string, Json>)

  /** What the k-line request does: raise with a message, or return a frame (`None` for no frame). */
  datatype HistResponse = Raised(message: string) | Returned(frame: Option<seq<KlineRow>>)

  /** The k-line request as an oracle of symbol, start date and end date. */
  type HistApi = (string, string, string) -> HistResponse

  datatype FetchResult =
    | Fetched(code: string, name: string, data: seq<KlineRow>, count: nat, startDate: string, endDate: string)
    | FetchFailed(code: string, name: string, error: string, waitSeconds: nat)

  /** The error text of a stock whose request returns no rows. */
  const NoData := "无数据"

  /** The wait after a failed request: `5 + 5 * retry` seconds for the two throttling messages, none otherwise. */
  function RateLimitWait(error: string, retry: nat): (w: nat)
    ensures w != 0 <==> Contains(error, "请勿频繁请求") || Contains(error, "请求过快")
    ensures w != 0 ==> w == 5 * (retry + 1)
  {
    if Contains(error, "请勿频繁请求") || Contains(error, "请求过快") then 5 + retry * 5 else 0
  }

  /** Python's `x or default` for an optional text. */
  function OrDefault(x: Option<string>, default: string): (r: string)
    ensures x.Some? && x.value != "" ==> r == x.value
    ensures x.None? || x.value == "" ==> r == default
  {
    if x.Some? && x.value != "" then x.value else default
  }

  /** The rows with the `stock_code` and `stock_name` columns added. */
  function WithStock(rows: seq<KlineRow>, code: string, name: string): (r: seq<KlineRow>)
    ensures |r| == |rows|
    ensures forall i :: 0 <= i < |r| ==>
      r[i].date == rows[i].date && r[i].fields == rows[i].fields["stock_code" := JStr(code)]["stock_name" := JStr(name)]
  {
    seq(|rows|, i requires 0 <= i < |rows| => KlineRow(rows[i].date, rows[i].fields["stock_code" := JStr(code)]["stock_name" := JStr(name)]))
  }

  /**
   * `fetch_stock_kline`: the request for the cleaned symbol over the given or default range; no
   * frame or an empty one is the failure "no data", a raising request fails with its message
   * and waits when throttled.
   */
  function FetchStockKline(code: string, name: string, start: Option<string>, end: Option<string>, retry: nat,
                           startDate: string, today: string, api: HistApi): (r: FetchResult)
    ensures var s, e := OrDefault(start, startDate), OrDefault(end, today);
      match api(CleanCode(code), s, e)
      case Raised(msg) => r == FetchFailed(code, name, msg, RateLimitWait(msg, retry))
      case Returned(frame) =>
        if frame.None? || frame.value == [] then r == FetchFailed(code, name, NoData, 0)
        else (r.Fetched? && r.count == |frame.value| > 0 && r.data == WithStock(frame.value, code, name)
              && r.startDate == s && r.endDate == e && r.code == code)
  {
    var s, e := OrDefault(start, startDate), OrDefault(end, today);
    match api(CleanCode(code), s, e)
    case Raised(msg) => FetchFailed(code, name, msg, RateLimitWait(msg, retry))
    case Returned(frame) =>
      if frame.None? || |frame.value| == 0 then FetchFailed(code, name, NoData, 0)
      else Fetched(code, name, WithStock(frame.value, code, name), |frame.value|, s, e)
  }

  /**
   * For a listed six-digit code, the request is for the bare code: a raise fails with its message
   * and wait, no frame or an empty one fails, and otherwise the rows come back stamped with the
   * listed code.
   */
  lemma FetchAsksForBareCode(code: string, name: string, start: Option<string>, end: Option<string>, retry: nat,
                             startDate: string, today: string, api: HistApi)
    requires |code| == 6 && '.' !in code
    ensures var full := Classify(code, name).code;
      var r := FetchStockKline(full, name, start, end, retry, startDate, today, api);
      match api(code, OrDefault(start, startDate), OrDefault(end, today))
      case Raised(msg) => r == FetchFailed(full, name, msg, RateLimitWait(msg, retry))
      case Returned(frame) =>
        (r.FetchFailed? <==> frame.None? || frame.value == [])
        && (r.Fetched? ==> r.code == full && r.data == WithStock(frame.value, full, name))
  {
    CleanCodeInvertsClassify(code, name);
  }

  /** Nothing passes a retry count, so a throttled request always waits five seconds. */
  lemma DefaultRetryWaitsFive(error: string)
    requires Contains(error, "请勿频繁请求") || Contains(error, "请求过快")
    ensures RateLimitWait(error, 0) == 5
  {
  }

  // ---------------------------------------------------------------- save_stock_data

  /** `code.replace('.', '_') + '.csv'`. */
  function SaveFileName(code: string): string
  {
    ReplaceAll(code, ".", "_") + ".csv"
  }

  /** Replacing one character by another keeps the length. */
  lemma {:induction false} ReplaceCharLength(s: string, c: char, d: char)
    ensures |ReplaceAll(s, [c], [d])| == |s|
    decreases |s|
  {
    if s != [] {
      ReplaceCharLength(s[1..], c, d);
    }
  }

  /** The optimiser reads a saved file name back as the code it was saved for, when the code has no `_`. */
  lemma SaveFileNameRoundTrip(code: string)
    requires '_' !in code
    ensures OptimizeKline.CodeOfFileName(SaveFileName(code)) == code
  {
    var stem := ReplaceAll(code, ".", "_");
    ReplaceCharRemoves(code, '.', "_");
    StripSuffix(stem, ".csv");
    SwapBackDotUnderscore(code);
  }

  /** A classified code is the code itself or the code and a three-character suffix, and gains no `_`. */
  lemma ClassifiedShape(code: string, name: string)
    requires '_' !in code
    ensures var full := Classify(code, name).code;
      '_' !in full && (|full| == |code| || |full| == |code| + 3)
  {
    var full := Classify(code, name).code;
    if full != code {
      assert full == code + ".SH" || full == code + ".SZ" || full == code + ".BJ";
    }
  }

  /** A saved file name of a 6- or 9-character code ends in `.csv` and is none of the three listing files. */
  lemma SavedNameIsKlineCsv(code: string)
    requires |code| == 6 || |code| == 9
    ensures OptimizeKline.IsKlineCsv(SaveFileName(code))
  {
    ReplaceCharLength(code, '.', '_');
    var f := SaveFileName(code);
    assert f[|f| - 4..] == ".csv";
    assert |f| == 10 || |f| == 13;
  }

  /** The file of a listed six-digit stock is selected by the optimiser under the listed code. */
  lemma ListedFileCode(code: string, name: string)
    requires |code| == 6 && '.' !in code && '_' !in code
    ensures OptimizeKline.FileCode(SaveFileName(Classify(code, name).code)) == Classify(code, name).code
    ensures OptimizeKline.IsKlineCsv(SaveFileName(Classify(code, name).code))
  {
    var full := Classify(code, name).code;
    ClassifiedShape(code, name);
    SaveFileNameRoundTrip(full);
    ClassifyAgreesWithNormalize(code, name);
    OptimizeKline.NormalizeIdempotent(code);
    SavedNameIsKlineCsv(full);
  }

  // ---------------------------------------------------------------- update_to_latest: the update list

  /** One cell of the date column after `pd.to_datetime`. */
  datatype DateCell =
    | Day(day: int)                         // a date, as a day number
    | Blank                                 // an empty cell, which becomes `NaT`
    | Malformed                             // text `to_datetime` rejects, so the whole column raises

  /** What reading a stock's existing file gives. */
  datatype ExistingFile =
    | Unreadable                            // `read_csv` raises
    | Undated                               // a table without a date column
    | Dated(dates: seq<DateCell>)           // the date column, one cell per row

  /** A stock the incremental update fetches; `dataStart` is `None` for a stock without a file. */
  datatype UpdateTask = UpdateTask(code: string, name: string, dataStart: Option<int>, fetchStart: int, fetchEnd: int)

  /** `pd.to_datetime` of the column: `None` when a cell is malformed, otherwise the dates it holds, blanks skipped as `max` skips `NaT`. */
  function ParsedDays(ds: seq<DateCell>): (r: Option<seq<int>>)
    ensures r.Some? <==> forall i :: 0 <= i < |ds| ==> !ds[i].Malformed?
    ensures r.Some? ==> forall x :: x in r.value <==> exists i :: 0 <= i < |ds| && ds[i] == Day(x)
    decreases |ds|
  {
    if ds == [] then Some([])
    else
      var init := ds[..|ds| - 1];
      assert forall i :: 0 <= i < |init| ==> init[i] == ds[i];
      match ParsedDays(init)
      case None => None
      case Some(days) =>
        match ds[|ds| - 1]
        case Malformed => None
        case Blank => Some(days)
        case Day(d) => Some(days + [d])
  }

  function Max(xs: seq<int>): (m: int)
    requires xs != []
    ensures m in xs && forall i :: 0 <= i < |xs| ==> xs[i] <= m
    decreases |xs|
  {
    if |xs| == 1 then xs[0]
    else
      var rest := Max(xs[..|xs| - 1]);
      if xs[|xs| - 1] > rest then xs[|xs| - 1] else rest
  }

  /**
   * The task one stock of the list contributes, if any. A column of blanks has the maximum
   * `NaT`, whose `strftime` raises inside the `try`, so that stock is skipped.
   */
  function TaskFor(stock: (string, string), csv: seq<string>, read: string -> ExistingFile, startDay: int, today: int): Option<UpdateTask>
  {
    var file := SaveFileName(stock.0);
    if file !in csv then Some(UpdateTask(stock.0, stock.1, None, startDay, today))
    else match read(file)
      case Dated(ds) =>
        if ds == [] || ParsedDays(ds).None? || ParsedDays(ds).value == [] then None
        else
          var last := Max(ParsedDays(ds).value);
          if last + 1 <= today then Some(UpdateTask(stock.0, stock.1, Some(last), last + 1, today)) else None
      case _ => None
  }

  /** Cell `i` holds a date that no other date of the column exceeds. */
  predicate NewestDay(ds: seq<DateCell>, i: int)
  {
    0 <= i < |ds| && ds[i].Day? && forall j :: 0 <= j < |ds| && ds[j].Day? ==> ds[j].day <= ds[i].day
  }

  /** The maximum of the parsed column is the date of a newest cell, and every newest cell holds it. */
  lemma MaxIsNewest(ds: seq<DateCell>)
    requires ParsedDays(ds).Some? && ParsedDays(ds).value != []
    ensures exists i :: NewestDay(ds, i) && ds[i].day == Max(ParsedDays(ds).value)
    ensures forall i :: NewestDay(ds, i) ==> ds[i].day == Max(ParsedDays(ds).value)
  {
    var xs := ParsedDays(ds).value;
    var m := Max(xs);
    forall j | 0 <= j < |ds| && ds[j].Day?
      ensures ds[j].day <= m
    {
      assert ds[j].day in xs;
    }
    var i :| 0 <= i < |ds| && ds[i] == Day(m);
    assert NewestDay(ds, i);
    forall k | NewestDay(ds, k)
      ensures ds[k].day == m
    {
      assert ds[k].day in xs;
    }
  }

  /**
   * A stock without a file is fetched in full from the start date; a stock with a readable,
   * non-empty file whose date column parses and holds a date is fetched from the day after
   * its newest date, and only when that day is not after today; every other stock is skipped.
   */
  lemma TaskForCases(stock: (string, string), csv: seq<string>, read: string -> ExistingFile, startDay: int, today: int)
    ensures var file := SaveFileName(stock.0); var t := TaskFor(stock, csv, read, startDay, today);
      (file !in csv ==> t == Some(UpdateTask(stock.0, stock.1, None, startDay, today)))
      && (file in csv ==>
        (t.Some? <==>
          (read(file).Dated?
           && (forall i :: 0 <= i < |read(file).dates| ==> !read(file).dates[i].Malformed?)
           && exists i :: NewestDay(read(file).dates, i) && read(file).dates[i].day + 1 <= today))
        && (t.Some? ==>
          (t.value.dataStart.Some? && t.value.fetchStart == t.value.dataStart.value + 1 <= today
           && t.value.fetchEnd == today && t.value.code == stock.0
           && (exists i :: 0 <= i < |read(file).dates| && read(file).dates[i] == Day(t.value.dataStart.value))
           && forall i :: 0 <= i < |read(file).dates| && read(file).dates[i].Day? ==>
                read(file).dates[i].day < t.value.fetchStart)))
  {
    var file := SaveFileName(stock.0);
    if file in csv && read(file).Dated? {
      var ds := read(file).dates;
      if ParsedDays(ds).Some? {
        assert forall i :: 0 <= i < |ds| && ds[i].Day? ==> ds[i].day in ParsedDays(ds).value;
        if ParsedDays(ds).value != [] {
          MaxIsNewest(ds);
        }
      }
    }
  }

  /** `update_list`, in stock-list order. */
  function UpdateList(stocks: seq<(string, string)>, csv: seq<string>, read: string -> ExistingFile, startDay: int, today: int): seq<UpdateTask>
    decreases |stocks|
  {
    if stocks == [] then []
    else
      var t := TaskFor(stocks[|stocks| - 1], csv, read, startDay, today);
      UpdateList(stocks[..|stocks| - 1], csv, read, startDay, today) + (if t.Some? then [t.value] else [])
  }

  /** Every task is some stock's task, every stock has at most one, and every task ends today. */
  lemma {:induction false} UpdateListMembers(stocks: seq<(string, string)>, csv: seq<string>, read: string -> ExistingFile, startDay: int, today: int)
    ensures |UpdateList(stocks, csv, read, startDay, today)| <= |stocks|
    ensures forall t :: t in UpdateList(stocks, csv, read, startDay, today) <==>
      exists i :: 0 <= i < |stocks| && TaskFor(stocks[i], csv, read, startDay, today) == Some(t)
    ensures forall t :: t in UpdateList(stocks, csv, read, startDay, today) ==> t.fetchEnd == today
    decreases |stocks|
  {
    if stocks != [] {
      var init := stocks[..|stocks| - 1];
      UpdateListMembers(init, csv, read, startDay, today);
      assert forall i :: 0 <= i < |init| ==> init[i] == stocks[i];
      forall t | exists i :: 0 <= i < |stocks| && TaskFor(stocks[i], csv, read, startDay, today) == Some(t)
        ensures t in UpdateList(stocks, csv, read, startDay, today)
      {
        var i :| 0 <= i < |stocks| && TaskFor(stocks[i], csv, read, startDay, today) == Some(t);
        if i < |init| {
          assert TaskFor(init[i], csv, read, startDay, today) == Some(t);
        }
      }
    }
  }

  /** The loop of `update_to_latest` that builds the update list from the stock list and the directory listing. */
  method BuildUpdateList(stocks: seq<(string, string)>, listing: seq<string>, read: string -> ExistingFile, startDay: int, today: int)
    returns (updateList: seq<UpdateTask>)
    ensures updateList == UpdateList(stocks, OptimizeKline.CsvFiles(listing), read, startDay, today)
  {
    var csvFiles := OptimizeKline.CsvFiles(listing);
    updateList := [];
    for k := 0 to |stocks|
      invariant updateList == UpdateList(stocks[..k], csvFiles, read, startDay, today)
    {
      assert stocks[..k + 1][..k] == stocks[..k];
      var t := TaskFor(stocks[k], csvFiles, read, startDay, today);
      if t.Some? {
        updateList := updateList + [t.value];
      }
    }
    assert stocks[..|stocks|] == stocks;
  }

  // ---------------------------------------------------------------- update_to_latest: the merge

  /** No later row has the date of row `i`. */
  predicate LastOfDate(xs: seq<KlineRow>, i: int)
    requires 0 <= i < |xs|
  {
    forall j :: i < j < |xs| ==> xs[j].date != xs[i].date
  }

  /** `drop_duplicates(subset=['日期'], keep='last')`: the last row of each date, in order. */
  function KeepLast(xs: seq<KlineRow>): seq<KlineRow>
    decreases |xs|
  {
    if xs == [] then []
    else (if LastOfDate(xs, 0) then [xs[0]] else []) + KeepLast(xs[1..])
  }

  predicate UniqueDates(xs: seq<KlineRow>)
  {
    forall i, j :: 0 <= i < j < |xs| ==> xs[i].date != xs[j].date
  }

  predicate AscendingDates(xs: seq<KlineRow>)
  {
    forall i, j :: 0 <= i < j < |xs| ==> xs[i].date < xs[j].date
  }

  /** The kept rows are exactly the rows no later row shares a date with. */
  lemma {:induction false} KeepLastMembers(xs: seq<KlineRow>)
    ensures forall x :: x in KeepLast(xs) <==> exists i :: 0 <= i < |xs| && xs[i] == x && LastOfDate(xs, i)
    decreases |xs|
  {
    if xs != [] {
      var rest := xs[1..];
      KeepLastMembers(rest);
      assert forall i :: 1 <= i < |xs| ==> xs[i] == rest[i - 1];
      assert forall i :: 1 <= i < |xs| ==> (LastOfDate(xs, i) <==> LastOfDate(rest, i - 1));
      forall x | exists i :: 0 <= i < |xs| && xs[i] == x && LastOfDate(xs, i)
        ensures x in KeepLast(xs)
      {
        var i :| 0 <= i < |xs| && xs[i] == x && LastOfDate(xs, i);
        if i > 0 {
          assert rest[i - 1] == x && LastOfDate(rest, i - 1);
        }
      }
      forall x | x in KeepLast(xs)
        ensures exists i :: 0 <= i < |xs| && xs[i] == x && LastOfDate(xs, i)
      {
        if !(LastOfDate(xs, 0) && x == xs[0]) {
          assert x in KeepLast(rest);
          var m :| 0 <= m < |rest| && rest[m] == x && LastOfDate(rest, m);
          assert xs[m + 1] == x && LastOfDate(xs, m + 1);
        }
      }
    }
  }

  /** The kept rows have distinct dates. */
  lemma KeepLastUnique(xs: seq<KlineRow>)
    ensures UniqueDates(KeepLast(xs))
  {
    var k := KeepLast(xs);
    KeepLastMembers(xs);
    forall a, b | 0 <= a < b < |k|
      ensures k[a].date != k[b].date
    {
      KeepLastOrder(xs, a, b);
    }
  }

  /** Two kept rows come from rows of the input in the same order. */
  lemma {:induction false} KeepLastOrder(xs: seq<KlineRow>, a: nat, b: nat)
    requires a < b < |KeepLast(xs)|
    ensures KeepLast(xs)[a].date != KeepLast(xs)[b].date
    decreases |xs|
  {
    var rest := xs[1..];
    var k := KeepLast(rest);
    if LastOfDate(xs, 0) {
      assert KeepLast(xs) == [xs[0]] + k;
      if a == 0 {
        KeepLastMembers(rest);
        assert k[b - 1] in k;
        var m :| 0 <= m < |rest| && rest[m] == k[b - 1] && LastOfDate(rest, m);
        assert xs[m + 1] == k[b - 1];
      } else {
        KeepLastOrder(rest, a - 1, b - 1);
      }
    } else {
      assert KeepLast(xs) == k;
      KeepLastOrder(rest, a, b);
    }
  }

  /** Every date of the input keeps a row. */
  lemma {:induction false} KeepLastCovers(xs: seq<KlineRow>)
    ensures forall i :: 0 <= i < |xs| ==> exists y :: y in KeepLast(xs) && y.date == xs[i].date
    decreases |xs|
  {
    if xs != [] {
      var rest := xs[1..];
      KeepLastCovers(rest);
      forall i | 0 <= i < |xs|
        ensures exists y :: y in KeepLast(xs) && y.date == xs[i].date
      {
        if i > 0 {
          assert rest[i - 1] == xs[i];
          var y :| y in KeepLast(rest) && y.date == rest[i - 1].date;
          assert y in KeepLast(xs);
        } else if LastOfDate(xs, 0) {
          assert xs[0] in KeepLast(xs);
        } else {
          var j :| 0 < j < |xs| && xs[j].date == xs[0].date;
          assert rest[j - 1] == xs[j];
          var y :| y in KeepLast(rest) && y.date == rest[j - 1].date;
          assert y in KeepLast(xs);
        }
      }
    }
  }

  /** Inserting a row of a new date into a date-ascending list. */
  function InsertByDate(x: KlineRow, ys: seq<KlineRow>): (r: seq<KlineRow>)
    requires AscendingDates(ys) && forall y :: y in ys ==> y.date != x.date
    ensures AscendingDates(r) && |r| == |ys| + 1
    ensures forall z :: z in r <==> z == x || z in ys
    decreases |ys|
  {
    if ys == [] || x.date < ys[0].date then [x] + ys
    else
      var rest := InsertByDate(x, ys[1..]);
      assert forall z :: z in rest ==> ys[0].date < z.date by {
        forall z | z in rest
          ensures ys[0].date < z.date
        {
          if z != x {
            var i :| 0 <= i < |ys[1..]| && ys[1..][i] == z;
            assert ys[i + 1] == z;
          }
        }
      }
      [ys[0]] + rest
  }

  /** `sort_values('日期')` on rows of distinct dates. */
  function SortByDate(xs: seq<KlineRow>): (r: seq<KlineRow>)
    requires UniqueDates(xs)
    ensures AscendingDates(r) && |r| == |xs|
    ensures forall z :: z in r <==> z in xs
    decreases |xs|
  {
    if xs == [] then []
    else
      var rest := SortByDate(xs[1..]);
      assert forall y :: y in rest ==> y.date != xs[0].date by {
        forall y | y in rest
          ensures y.date != xs[0].date
        {
          var i :| 0 <= i < |xs[1..]| && xs[1..][i] == y;
          assert xs[i + 1] == y;
        }
      }
      InsertByDate(xs[0], rest)
  }

  /**
   * The rows saved for a stock: with existing rows, both lists concatenated, one row per date
   * with the later row winning, in date order; without existing rows, the fetched rows as they are.
   */
  function MergeRows(existing: seq<KlineRow>, fetched: seq<KlineRow>): seq<KlineRow>
  {
    if existing == [] then fetched
    else
      KeepLastUnique(existing + fetched);
      SortByDate(KeepLast(existing + fetched))
  }

  /**
   * After a merge with existing rows, the dates ascend strictly, every date of either list is
   * present once, and each row is the last row of its date; so a fetched row replaces a stored
   * row of the same date.
   */
  lemma MergeRowsProps(existing: seq<KlineRow>, fetched: seq<KlineRow>)
    requires existing != []
    ensures var r, all := MergeRows(existing, fetched), existing + fetched;
      AscendingDates(r)
      && (forall x :: x in r <==> exists i :: 0 <= i < |all| && all[i] == x && LastOfDate(all, i))
      && (forall i :: 0 <= i < |all| ==> exists y :: y in r && y.date == all[i].date)
  {
    KeepLastMembers(existing + fetched);
    KeepLastCovers(existing + fetched);
  }

  /** A fetched row that is the last of its date among the fetched rows is what the merge keeps for that date. */
  lemma FreshRowWins(existing: seq<KlineRow>, fetched: seq<KlineRow>, i: nat)
    requires existing != [] && i < |fetched|
    requires forall j :: i < j < |fetched| ==> fetched[j].date != fetched[i].date
    ensures fetched[i] in MergeRows(existing, fetched)
  {
    var all := existing + fetched;
    MergeRowsProps(existing, fetched);
    assert all[|existing| + i] == fetched[i];
    assert LastOfDate(all, |existing| + i) by {
      forall j | |existing| + i < j < |all|
        ensures all[j].date != all[|existing| + i].date
      {
        assert all[j] == fetched[j - |existing|];
      }
    }
  }

  /** Without existing rows nothing is de-duplicated or sorted. */
  lemma MergeWithoutExisting(fetched: seq<KlineRow>)
    ensures MergeRows([], fetched) == fetched
  {
  }
}
