/**
 * The pool fetcher of `fetch_history_data.py`: the decoding of an API response into a list
 * of records, the three pool URLs, the calendar walk that lists trading dates, the fetch loop
 * that writes the per-day snapshots and keeps per-category totals, the daily-stat read-back,
 * and the consecutive-board histogram of the single-date report.
 */
module HistoryFetch {
  import opened Common
  import opened Snapshots

  // ---------------------------------------------------------------- response decoding

  /**
   * What `requests.get` produced: a timeout, any other request error, or a response with
   * a status code and a body that either parses as JSON or does not.
   */
  datatype Response = TimedOut | RequestFailed | Http(status: int, body: Option<Json>)

  /** `raise_for_status` raises for the client and server error classes. */
  predicate IsErrorStatus(status: int)
  {
    400 <= status < 600
  }

  /**
   * The list a parsed body stands for: a bare array as it is; an envelope whose `code` is 200
   * gives its `data` when that is an array and `data.list` (default empty) when it is an
   * object; every other body gives the empty list.
   */
  function Decode(body: Json): (r: Json)
    ensures body.JArr? ==> r == body
    ensures !body.JArr? && !body.JObj? ==> r == JArr([])
    ensures body.JObj? && Get(body.fields, "code", JNull) != JNum(200.0) ==> r == JArr([])
    ensures body.JObj? && Get(body.fields, "code", JNull) == JNum(200.0) ==>
      var dataField := Get(body.fields, "data", JObj(map[]));
      (dataField.JArr? ==> r == dataField)
      && (dataField.JObj? ==> r == Get(dataField.fields, "list", JArr([])))
      && (!dataField.JArr? && !dataField.JObj? ==> r == JArr([]))
  {
    match body
    case JArr(_) => body
    case JObj(fields) =>
      if Get(fields, "code", JNull) == JNum(200.0) then
        var dataField := Get(fields, "data", JObj(map[]));
        match dataField
        case JArr(_) => dataField
        case JObj(inner) => Get(inner, "list", JArr([]))
        case _ => JArr([])
      else JArr([])
    case _ => JArr([])
  }

  /** `_fetch`: never raises; every failure is the empty list. */
  function Fetch(resp: Response): (r: Json)
    ensures resp.TimedOut? || resp.RequestFailed? ==> r == JArr([])
    ensures resp.Http? && (IsErrorStatus(resp.status) || resp.body.None?) ==> r == JArr([])
    ensures resp.Http? && !IsErrorStatus(resp.status) && resp.body.Some? ==> r == Decode(resp.body.value)
  {
    match resp
    case Http(status, body) =>
      if IsErrorStatus(status) then JArr([])
      else if body.None? then JArr([])
      else Decode(body.value)
    case _ => JArr([])
  }

  /** The envelope `{code: 200, data: [...]}`. */
  function ListEnvelope(records: seq<Json>): Json
  {
    JObj(map["code" := JNum(200.0), "data" := JArr(records)])
  }

  /** The envelope `{code: 200, data: {list: [...]}}`. */
  function NestedEnvelope(records: seq<Json>): Json
  {
    JObj(map["code" := JNum(200.0), "data" := JObj(map["list" := JArr(records)])])
  }

  /** All three wire formats of a list of records decode to that list. */
  lemma DecodeWireFormats(records: seq<Json>)
    ensures Decode(JArr(records)) == JArr(records)
    ensures Decode(ListEnvelope(records)) == JArr(records)
    ensures Decode(NestedEnvelope(records)) == JArr(records)
  {
  }

  /** An envelope with another code, or a code-200 envelope whose `data` is neither an array nor an object, decodes to nothing. */
  lemma DecodeRejects(code: Json, data: Json, msg: Json)
    ensures code != JNum(200.0) ==> Decode(JObj(map["code" := code, "data" := data, "msg" := msg])) == JArr([])
    ensures !data.JArr? && !data.JObj? ==> Decode(JObj(map["code" := JNum(200.0), "data" := data])) == JArr([])
    ensures Decode(JObj(map["code" := JNum(200.0)])) == JArr([])
  {
  }

  /** A truthy fetch — any non-empty list — comes from a response that parsed with a success status. */
  lemma FetchNonEmptyHadBody(resp: Response)
    requires Truthy(Fetch(resp))
    ensures resp.Http? && !IsErrorStatus(resp.status) && resp.body.Some?
  {
  }

  // ---------------------------------------------------------------- pool URLs

  function PoolSegment(c: Category): (seg: string)
    ensures |seg| == 4
  {
    match c
    case LimitUp => "ztgc"
    case LimitDown => "dtgc"
    case Explode => "zbgc"
  }

  /** `f"{base_url}/hs/pool/{segment}/{date}?token={token}"`. */
  function PoolUrl(base: string, c: Category, date: string, token: string): (url: string)
    ensures StartsWith(url, base + "/hs/pool/")
    ensures |url| >= |base| + 13 && url[|base| + 9..|base| + 13] == PoolSegment(c)
    ensures EndsWith(url, "/" + date + "?token=" + token)
  {
    var head := base + "/hs/pool/";
    var seg := PoolSegment(c);
    var tail := "/" + date + "?token=" + token;
    var url := (head + seg) + tail;
    assert |head| == |base| + 9 && |seg| == 4;
    assert url[..|head|] == head;
    assert url[|head|..|head| + 4] == seg;
    assert url[|url| - |tail|..] == tail;
    url
  }

  /** The category a pool URL asks for, read back from its path segment. */
  function CategoryOfUrl(base: string, url: string): Option<Category>
  {
    if |url| < |base| + 13 then None
    else
      var seg := url[|base| + 9..|base| + 13];
      if seg == "ztgc" then Some(LimitUp)
      else if seg == "dtgc" then Some(LimitDown)
      else if seg == "zbgc" then Some(Explode)
      else None
  }

  /** The three pools never share a URL: the URL names its pool. */
  lemma PoolUrlNamesCategory(base: string, c: Category, date: string, token: string)
    ensures CategoryOfUrl(base, PoolUrl(base, c, date, token)) == Some(c)
  {
    var url := PoolUrl(base, c, date, token);
    assert |url| >= |base| + 13;
  }

  // ---------------------------------------------------------------- trading dates

  /**
   * A date as its proleptic Gregorian ordinal (`date.toordinal()`, day 1 being Monday
   * 0001-01-01); `weekday()` is then `(n + 6) % 7`, with 5 and 6 the weekend.
   */
  function Weekday(n: int): int
  {
    (n + 6) % 7
  }

  predicate IsTradingDay(n: int)
  {
    Weekday(n) < 5
  }

  /** `get_trading_dates` once its range is fixed: every weekday from `start` to `end`, in order. */
  method TradingDates(start: int, end: int) returns (dates: seq<int>)
    ensures forall i, j :: 0 <= i < j < |dates| ==> dates[i] < dates[j]
    ensures forall i :: 0 <= i < |dates| ==> start <= dates[i] <= end && IsTradingDay(dates[i])
    ensures forall n :: start <= n <= end && IsTradingDay(n) ==> n in dates
  {
    dates := [];
    var current := start;
    while current <= end
      invariant start <= current <= if end < start then start else end + 1
      invariant forall i, j :: 0 <= i < j < |dates| ==> dates[i] < dates[j]
      invariant forall i :: 0 <= i < |dates| ==> start <= dates[i] < current && IsTradingDay(dates[i])
      invariant forall n :: start <= n < current && IsTradingDay(n) ==> n in dates
      decreases end - current
    {
      if Weekday(current) < 5 {
        dates := dates + [current];
      }
      current := current + 1;
    }
  }

  // ---------------------------------------------------------------- the history fetch loop

  /** The tallies of `fetch_two_months_data`. */
  datatype FetchStats = FetchStats(limitUp: nat, limitDown: nat, explode: nat, dates: nat)

  /** Records fetched for category `c` over `dates`, in order: the `all_*` lists. */
  function Gathered(dates: seq<string>, c: Category, fetch: Fetcher): seq<Json>
    decreases |dates|
  {
    if dates == [] then [] else Gathered(dates[..|dates| - 1], c, fetch) + fetch(c, dates[|dates| - 1])
  }

  /** The number of records fetched for category `c` over `dates`. */
  function TotalFetched(dates: seq<string>, c: Category, fetch: Fetcher): nat
    decreases |dates|
  {
    if dates == [] then 0 else TotalFetched(dates[..|dates| - 1], c, fetch) + |fetch(c, dates[|dates| - 1])|
  }

  /** The per-category total is the length of the gathered list, and it is zero exactly when every fetch came back empty. */
  lemma {:induction false} GatheredTotal(dates: seq<string>, c: Category, fetch: Fetcher)
    ensures |Gathered(dates, c, fetch)| == TotalFetched(dates, c, fetch)
    ensures TotalFetched(dates, c, fetch) == 0 <==> forall i :: 0 <= i < |dates| ==> fetch(c, dates[i]) == []
    decreases |dates|
  {
    if dates != [] {
      var init := dates[..|dates| - 1];
      GatheredTotal(init, c, fetch);
      assert forall i :: 0 <= i < |init| ==> init[i] == dates[i];
    }
  }

  /** The fetch of one more date: its write on top of the earlier ones, and its pools after the earlier ones. */
  lemma FetchStep(files: Files, dates: seq<string>, i: nat, fetch: Fetcher)
    requires i < |dates|
    ensures AfterFetch(files, dates[..i + 1], fetch) == FetchDate(AfterFetch(files, dates[..i], fetch), dates[i], fetch)
    ensures forall c :: TotalFetched(dates[..i + 1], c, fetch) == TotalFetched(dates[..i], c, fetch) + |fetch(c, dates[i])|
    ensures forall c :: Gathered(dates[..i + 1], c, fetch) == Gathered(dates[..i], c, fetch) + fetch(c, dates[i])
  {
    assert dates[..i + 1][..i] == dates[..i];
  }

  /** One date of the fetch loop: the three pools in order, each written when non-empty. */
  method FetchOneDate(store: Store, date: string, fetch: Fetcher) returns (limitUp: seq<Json>, limitDown: seq<Json>, explode: seq<Json>)
    modifies store
    ensures store.files == FetchDate(old(store.files), date, fetch)
    ensures limitUp == fetch(LimitUp, date) && limitDown == fetch(LimitDown, date) && explode == fetch(Explode, date)
  {
    limitUp := fetch(LimitUp, date);
    if limitUp != [] {
      store.WriteSnapshot(LimitUp, date, limitUp);
    }
    limitDown := fetch(LimitDown, date);
    if limitDown != [] {
      store.WriteSnapshot(LimitDown, date, limitDown);
    }
    explode := fetch(Explode, date);
    if explode != [] {
      store.WriteSnapshot(Explode, date, explode);
    }
  }

  /**
   * The fetch loop of `fetch_two_months_data`: for each date the three pools in order, a
   * snapshot written only for a non-empty list, the totals and the gathered lists kept. An
   * empty date list fails at `trading_dates[0]` before anything is fetched.
   */
  method FetchRange(store: Store, dates: seq<string>, fetch: Fetcher)
    returns (r: Option<(FetchStats, seq<Json>, seq<Json>, seq<Json>)>)
    modifies store
    ensures dates == [] ==> r.None? && store.files == old(store.files)
    ensures dates != [] ==> r.Some? && store.files == AfterFetch(old(store.files), dates, fetch)
    ensures r.Some? ==> var (stats, allUp, allDown, allExplode) := r.value;
      stats == FetchStats(TotalFetched(dates, LimitUp, fetch), TotalFetched(dates, LimitDown, fetch),
                          TotalFetched(dates, Explode, fetch), |dates|)
      && allUp == Gathered(dates, LimitUp, fetch) && allDown == Gathered(dates, LimitDown, fetch)
      && allExplode == Gathered(dates, Explode, fetch)
  {
    if dates == [] {
      return None;
    }
    var stats := FetchStats(0, 0, 0, 0);
    var allUp, allDown, allExplode := [], [], [];
    var i := 0;
    while i < |dates|
      invariant 0 <= i <= |dates|
      invariant store.files == AfterFetch(old(store.files), dates[..i], fetch)
      invariant stats == FetchStats(TotalFetched(dates[..i], LimitUp, fetch), TotalFetched(dates[..i], LimitDown, fetch),
                                    TotalFetched(dates[..i], Explode, fetch), i)
      invariant allUp == Gathered(dates[..i], LimitUp, fetch) && allDown == Gathered(dates[..i], LimitDown, fetch)
      invariant allExplode == Gathered(dates[..i], Explode, fetch)
    {
      var date := dates[i];
      FetchStep(old(store.files), dates, i, fetch);
      var limitUp, limitDown, explode := FetchOneDate(store, date, fetch);
      stats := stats.(limitUp := stats.limitUp + |limitUp|, limitDown := stats.limitDown + |limitDown|,
                      explode := stats.explode + |explode|);
      allUp, allDown, allExplode := allUp + limitUp, allDown + limitDown, allExplode + explode;
      stats := stats.(dates := stats.dates + 1);
      i := i + 1;
    }
    assert dates[..|dates|] == dates;
    r := Some((stats, allUp, allDown, allExplode));
  }

  // ---------------------------------------------------------------- daily statistics

  /** One read-back: `data.get("count", 0)`, with 0 kept when the file is missing, unreadable or not an object. */
  function DailyCount(files: Files, c: Category, date: string): (count: Json)
    ensures (c, FileName(date)) !in files ==> count == JNum(0.0)
    ensures var key := (c, FileName(date));
      key in files && !(files[key].Parsed? && files[key].doc.JObj?) ==> count == JNum(0.0)
    ensures var key := (c, FileName(date));
      key in files && files[key].Parsed? && files[key].doc.JObj? ==>
        count == if "count" in files[key].doc.fields then files[key].doc.fields["count"] else JNum(0.0)
  {
    var key := (c, FileName(date));
    if key in files && files[key].Parsed? && files[key].doc.JObj? then Get(files[key].doc.fields, "count", JNum(0.0))
    else JNum(0.0)
  }

  datatype DailyStat = DailyStat(date: string, limitUpCount: Json, limitDownCount: Json, explodeCount: Json)

  /** The `daily_stats` rows, one per trading date. */
  method DailyStats(files: Files, dates: seq<string>) returns (rows: seq<DailyStat>)
    ensures |rows| == |dates|
    ensures forall i :: 0 <= i < |dates| ==>
      rows[i] == DailyStat(dates[i], DailyCount(files, LimitUp, dates[i]), DailyCount(files, LimitDown, dates[i]),
                           DailyCount(files, Explode, dates[i]))
  {
    rows := [];
    for i := 0 to |dates|
      invariant |rows| == i
      invariant forall j :: 0 <= j < i ==>
        rows[j] == DailyStat(dates[j], DailyCount(files, LimitUp, dates[j]), DailyCount(files, LimitDown, dates[j]),
                             DailyCount(files, Explode, dates[j]))
    {
      var date := dates[i];
      var stat := DailyStat(date, JNum(0.0), JNum(0.0), JNum(0.0));
      var keyUp := (LimitUp, FileName(date));
      if keyUp in files && files[keyUp].Parsed? && files[keyUp].doc.JObj? {
        stat := stat.(limitUpCount := Get(files[keyUp].doc.fields, "count", JNum(0.0)));
      }
      var keyDown := (LimitDown, FileName(date));
      if keyDown in files && files[keyDown].Parsed? && files[keyDown].doc.JObj? {
        stat := stat.(limitDownCount := Get(files[keyDown].doc.fields, "count", JNum(0.0)));
      }
      var keyExplode := (Explode, FileName(date));
      if keyExplode in files && files[keyExplode].Parsed? && files[keyExplode].doc.JObj? {
        stat := stat.(explodeCount := Get(files[keyExplode].doc.fields, "count", JNum(0.0)));
      }
      rows := rows + [stat];
    }
  }

  /**
   * After the fetch loop, a date whose pool came back non-empty reads back the length of
   * that pool; a date whose pool came back empty reads back whatever its file held before.
   */
  lemma DailyCountAfterFetch(files: Files, dates: seq<string>, fetch: Fetcher, c: Category, date: string)
    requires date in dates
    ensures fetch(c, date) != [] ==> DailyCount(AfterFetch(files, dates, fetch), c, date) == JNum(|fetch(c, date)| as real)
    ensures fetch(c, date) == [] ==> DailyCount(AfterFetch(files, dates, fetch), c, date) == DailyCount(files, c, date)
  {
    FileNameDate(date);
    AfterFetchAt(files, dates, fetch, c, FileName(date));
  }

  // ---------------------------------------------------------------- single-date report

  /** The name `fetch_single_date` saves a pool under in the `today` directory. */
  function TodayFileName(c: Category, date: string): string
  {
    DirName(c) + "_" + date + ".json"
  }

  /** The three pools of one run, and the runs of different dates, never write the same `today` file. */
  lemma TodayFileNamesDistinct(c: Category, date: string, c2: Category, date2: string)
    requires (c, date) != (c2, date2)
    ensures TodayFileName(c, date) != TodayFileName(c2, date2)
  {
    if c == c2 {
      assert TodayFileName(c, date) == (DirName(c) + "_") + (date + ".json");
      assert TodayFileName(c, date2) == (DirName(c) + "_") + (date2 + ".json");
      SuffixedDistinct(DirName(c) + "_", date, date2);
    } else {
      KindMarks(c, date);
      KindMarks(c2, date2);
    }
  }

  lemma SuffixedDistinct(p: string, a: string, b: string)
    requires a != b
    ensures p + (a + ".json") != p + (b + ".json")
  {
    assert (p + (a + ".json"))[|p|..] == a + ".json" && (p + (b + ".json"))[|p|..] == b + ".json";
    assert (a + ".json")[..|a|] == a && (b + ".json")[..|b|] == b;
  }

  /** The first and seventh characters of a `today` name tell its pool. */
  lemma KindMarks(c: Category, date: string)
    ensures |TodayFileName(c, date)| > 6
    ensures TodayFileName(c, date)[0] == DirName(c)[0] && TodayFileName(c, date)[6] == DirName(c)[6]
  {
  }

  /**
   * The histogram key of one pool record: `s.get('lbc', 0)`, with Python's equal keys merged
   * (`True` is the key 1). A record that is not an object, or whose `lbc` is a list or an
   * object (unhashable), makes the report raise.
   */
  function LbcKey(record: Json): Option<Json>
  {
    if !record.JObj? then None
    else
      var v := Get(record.fields, "lbc", JNum(0.0));
      match v
      case JBool(b) => Some(JNum(if b then 1.0 else 0.0))
      case JArr(_) => None
      case JObj(_) => None
      case _ => Some(v)
  }

  predicate AllKeyed(records: seq<Json>)
  {
    forall i :: 0 <= i < |records| ==> LbcKey(records[i]).Some?
  }

  /** The number of records whose key is `k`. */
  function CountKey(records: seq<Json>, k: Json): nat
    requires AllKeyed(records)
    decreases |records|
  {
    if records == [] then 0
    else CountKey(records[..|records| - 1], k) + (if LbcKey(records[|records| - 1]) == Some(k) then 1 else 0)
  }

  /** The `consecutive` dict: for each key met, the number of records carrying it. */
  function Histogram(records: seq<Json>): (h: map<Json, nat>)
    requires AllKeyed(records)
    decreases |records|
  {
    if records == [] then map[]
    else
      var h := Histogram(records[..|records| - 1]);
      var k := LbcKey(records[|records| - 1]).value;
      h[k := (if k in h then h[k] else 0) + 1]
  }

  /** The sum of a histogram's counts. */
  ghost function Total(h: map<Json, nat>): nat
    decreases |h.Keys|
  {
    if h == map[] then 0
    else
      var k :| k in h;
      h[k] + Total(h - {k})
  }

  lemma {:induction false} TotalRemove(h: map<Json, nat>, k: Json)
    requires k in h
    ensures Total(h) == h[k] + Total(h - {k})
    decreases |h.Keys|
  {
    var j :| j in h && Total(h) == h[j] + Total(h - {j});
    if j != k {
      TotalRemove(h - {j}, k);
      TotalRemove(h - {k}, j);
      assert h - {j} - {k} == h - {k} - {j};
    }
  }

  /** Dropping the last record keeps every record keyed. */
  lemma AllKeyedInit(records: seq<Json>)
    requires AllKeyed(records) && records != []
    ensures AllKeyed(records[..|records| - 1])
  {
    var init := records[..|records| - 1];
    assert forall i :: 0 <= i < |init| ==> init[i] == records[i];
  }

  /** Every key counts exactly the records that carry it, and only keys that occur appear. */
  lemma {:induction false} HistogramCounts(records: seq<Json>)
    requires AllKeyed(records)
    ensures forall k :: k in Histogram(records) <==> CountKey(records, k) > 0
    ensures forall k :: k in Histogram(records) ==> Histogram(records)[k] == CountKey(records, k)
    decreases |records|
  {
    if records != [] {
      AllKeyedInit(records);
      HistogramCounts(records[..|records| - 1]);
    }
  }

  /** The counts of the histogram add up to the number of records. */
  lemma {:induction false} HistogramTotal(records: seq<Json>)
    requires AllKeyed(records)
    ensures Total(Histogram(records)) == |records|
    decreases |records|
  {
    if records != [] {
      var init := records[..|records| - 1];
      AllKeyedInit(records);
      HistogramTotal(init);
      var h := Histogram(init);
      var k := LbcKey(records[|records| - 1]).value;
      var v := (if k in h then h[k] else 0) + 1;
      assert Histogram(records) == h[k := v];
      TotalRemove(h[k := v], k);
      assert h[k := v] - {k} == h - {k};
      if k in h {
        TotalRemove(h, k);
      } else {
        assert h - {k} == h;
      }
    }
  }

  /** The histogram loop of `fetch_single_date`; `None` when a record makes it raise. */
  method LbcHistogram(records: seq<Json>) returns (r: Option<map<Json, nat>>)
    ensures r.None? <==> !AllKeyed(records)
    ensures r.Some? ==> r.value == Histogram(records)
  {
    var consecutive: map<Json, nat> := map[];
    var i := 0;
    while i < |records|
      invariant 0 <= i <= |records|
      invariant AllKeyed(records[..i])
      invariant consecutive == Histogram(records[..i])
    {
      var key := LbcKey(records[i]);
      if key.None? {
        return None;
      }
      assert records[..i + 1][..i] == records[..i];
      var days := key.value;
      consecutive := consecutive[days := (if days in consecutive then consecutive[days] else 0) + 1];
      i := i + 1;
    }
    assert records[..|records|] == records;
    r := Some(consecutive);
  }
}
