/**
 * The k-line lookup of `stock_kline.py`: the code a request names is normalised to a bare
 * symbol, given the market prefix the daily-history request takes, and the returned rows
 * are cut down to the trading days, newest first, at most `days` of them.
 */
module StockKline {
  import opened Common

  // ---------------------------------------------------------------- normalize_stock_code

  /** Whether `s`, lower-cased, starts with `sh` or `sz`. */
  predicate HasMarketPrefix(s: string)
  {
    StartsWith(Lower(s), "sh") || StartsWith(Lower(s), "sz")
  }

  /** `normalize_stock_code`: strip, then drop one leading `sh`/`sz` in any letter case. */
  function NormalizeStockCode(code: string): (r: string)
    ensures HasMarketPrefix(Strip(code)) ==> Strip(code) == Strip(code)[..2] + r && |r| == |Strip(code)| - 2
    ensures !HasMarketPrefix(Strip(code)) ==> r == Strip(code)
  {
    var c := Strip(code);
    if HasMarketPrefix(c) then c[2..] else c
  }

  /** A prefixed code with no trailing space is left alone by `strip`. */
  lemma PrefixedStripsClean(p: string, d: string)
    requires |p| == 2 && (p[0] == 's' || p[0] == 'S') && (p[1] in "hHzZ")
    requires d == [] || !IsSpace(d[|d| - 1])
    ensures Strip(p + d) == p + d
  {
    var s := p + d;
    assert s[0] == p[0];
    assert s[|s| - 1] == if d == [] then p[1] else d[|d| - 1];
    StripClean(s);
  }

  /** Lower-cased, a code spelled with a two-letter `sh`/`sz` prefix in any case starts with `sh` or `sz`. */
  lemma AnyCasePrefixLowers(p: string, d: string)
    requires |p| == 2 && (p[0] == 's' || p[0] == 'S') && (p[1] in "hHzZ")
    ensures HasMarketPrefix(p + d)
  {
    var l := Lower(p + d);
    assert l[0] == LowerChar(p[0]) == 's';
    assert l[1] == LowerChar(p[1]);
    assert l[1] == 'h' || l[1] == 'z';
    assert l[..2] == [l[0], l[1]];
  }

  /** A two-letter prefix spelled `sh`, `SH`, `Sz`, ... is exactly what is dropped. */
  lemma DropsAnyCasePrefix(p: string, d: string)
    requires |p| == 2 && (p[0] == 's' || p[0] == 'S') && (p[1] in "hHzZ")
    requires d == [] || !IsSpace(d[|d| - 1])
    ensures NormalizeStockCode(p + d) == d
  {
    PrefixedStripsClean(p, d);
    AnyCasePrefixLowers(p, d);
    assert (p + d)[2..] == d;
  }

  /** Only one prefix goes: a doubled prefix leaves one behind, so the normalisation is not idempotent. */
  lemma NormalizeNotIdempotent(p: string, d: string)
    requires |p| == 2 && (p[0] == 's' || p[0] == 'S') && (p[1] in "hHzZ")
    requires d == [] || !IsSpace(d[|d| - 1])
    ensures NormalizeStockCode(p + (p + d)) == p + d
    ensures NormalizeStockCode(NormalizeStockCode(p + (p + d))) == d
    ensures NormalizeStockCode(NormalizeStockCode(p + (p + d))) != NormalizeStockCode(p + (p + d))
  {
    var pd := p + d;
    assert !IsSpace(pd[|pd| - 1]) by {
      if d == [] { assert pd[|pd| - 1] == p[1]; } else { assert pd[|pd| - 1] == d[|d| - 1]; }
    }
    DropsAnyCasePrefix(p, pd);
    DropsAnyCasePrefix(p, d);
  }

  // ---------------------------------------------------------------- the market prefix

  /** `'sh' if symbol.startswith('6') else 'sz'`. */
  function MarketPrefix(symbol: string): (p: string)
    ensures p == "sh" <==> StartsWith(symbol, "6")
    ensures p == "sh" || p == "sz"
  {
    if StartsWith(symbol, "6") then "sh" else "sz"
  }

  /** The symbol the request takes. */
  function FullSymbol(symbol: string): string
  {
    MarketPrefix(symbol) + symbol
  }

  /** Normalising the prefixed symbol gives the symbol back. */
  lemma FullSymbolRoundTrip(symbol: string)
    requires symbol == [] || !IsSpace(symbol[|symbol| - 1])
    ensures NormalizeStockCode(FullSymbol(symbol)) == symbol
  {
    DropsAnyCasePrefix(MarketPrefix(symbol), symbol);
  }

  /** ... and every normalised code qualifies, so the request's symbol always normalises back to it. */
  lemma NormalizedSymbolRoundTrip(code: string)
    ensures NormalizeStockCode(FullSymbol(NormalizeStockCode(code))) == NormalizeStockCode(code)
  {
    var c := Strip(code);
    if HasMarketPrefix(c) {
      var s := c[2..];
      if s != [] {
        assert s[|s| - 1] == c[|c| - 1];
      }
      FullSymbolRoundTrip(s);
    } else {
      FullSymbolRoundTrip(c);
    }
  }

  // ---------------------------------------------------------------- the rows

  /** One daily row after the column selection; a numeric cell is `None` where `to_numeric` coerces it to NaN. */
  datatype DayRow = DayRow(date: string, open: Option<real>, high: Option<real>, low: Option<real>,
                           close: Option<real>, vol: Option<real>, amount: Option<real>)

  /** `vol > 0`; a NaN volume compares false. */
  predicate Traded(row: DayRow)
  {
    row.vol.Some? && row.vol.value > 0.0
  }

  /** `df[df['vol'] > 0]`. */
  function TradedRows(rows: seq<DayRow>): (r: seq<DayRow>)
    ensures forall x :: x in r <==> x in rows && Traded(x)
    ensures |r| <= |rows|
    decreases |rows|
  {
    if rows == [] then []
    else TradedRows(rows[..|rows| - 1]) + (if Traded(rows[|rows| - 1]) then [rows[|rows| - 1]] else [])
  }

  /** Newest first: no row is older than the row after it. */
  predicate NewestFirst(rows: seq<DayRow>)
  {
    forall i :: 0 <= i < |rows| - 1 ==> !LexLess(rows[i].date, rows[i + 1].date)
  }

  lemma NotLessTransitive(a: string, b: string, c: string)
    requires !LexLess(a, b) && !LexLess(b, c)
    ensures !LexLess(a, c)
  {
    if LexLess(a, c) {
      if a == b {
        assert false;
      } else {
        LexTotal(a, b);
        LexTransitive(b, a, c);
        assert false;
      }
    }
  }

  /** Newest first between neighbours gives newest first between any two rows. */
  lemma {:induction false} NewestFirstPairwise(rows: seq<DayRow>, i: nat, j: nat)
    requires NewestFirst(rows) && i <= j < |rows|
    ensures !LexLess(rows[i].date, rows[j].date)
    decreases j - i
  {
    if i == j {
      LexIrreflexive(rows[i].date);
    } else {
      NewestFirstPairwise(rows, i + 1, j);
      NotLessTransitive(rows[i].date, rows[i + 1].date, rows[j].date);
    }
  }

  /** Inserting a row into a newest-first list. */
  function InsertNewestFirst(x: DayRow, ys: seq<DayRow>): (r: seq<DayRow>)
    requires NewestFirst(ys)
    ensures NewestFirst(r) && multiset(r) == multiset(ys) + multiset{x}
    ensures ys != [] ==> r[0] == x || r[0] == ys[0]
    decreases |ys|
  {
    if ys == [] || !LexLess(x.date, ys[0].date) then [x] + ys
    else
      var rest := InsertNewestFirst(x, ys[1..]);
      LexAsymmetric(x.date, ys[0].date);
      assert ys == [ys[0]] + ys[1..];
      [ys[0]] + rest
  }

  /** `sort_values('date', ascending=False)`; the order among rows of one date is left open by the source. */
  function SortNewestFirst(rows: seq<DayRow>): (r: seq<DayRow>)
    ensures NewestFirst(r) && multiset(r) == multiset(rows)
    decreases |rows|
  {
    if rows == [] then []
    else
      assert rows == [rows[0]] + rows[1..];
      InsertNewestFirst(rows[0], SortNewestFirst(rows[1..]))
  }

  /** Python's `df.head(n)`: the first `n` rows, or all but the last `-n` for a negative `n`. */
  function Head(rows: seq<DayRow>, n: int): (r: seq<DayRow>)
    ensures n >= 0 ==> |r| == if n <= |rows| then n else |rows|
    ensures n < 0 ==> |r| == if |rows| + n >= 0 then |rows| + n else 0
    ensures r == rows[..|r|]
  {
    if n >= 0 then rows[..if n <= |rows| then n else |rows|]
    else rows[..if |rows| + n >= 0 then |rows| + n else 0]
  }

  /**
   * The rows `fetch_kline_akshare` returns for a frame: `None` for an empty frame, otherwise
   * the traded rows, newest first, cut by `head(days)`.
   */
  function KlineRows(frame: seq<DayRow>, days: int): Option<seq<DayRow>>
  {
    if frame == [] then None else Some(Head(SortNewestFirst(TradedRows(frame)), days))
  }

  /** Every returned row traded and comes from the frame, the rows are newest first, and there are at most `days`. */
  lemma KlineRowsProps(frame: seq<DayRow>, days: int)
    requires frame != []
    ensures var r := KlineRows(frame, days).value;
      (forall x :: x in r ==> x in frame && Traded(x))
      && (forall i, j :: 0 <= i <= j < |r| ==> !LexLess(r[i].date, r[j].date))
      && (days >= 0 ==> |r| <= days)
      && |r| <= |TradedRows(frame)|
  {
    var sorted := SortNewestFirst(TradedRows(frame));
    var r := Head(sorted, days);
    forall x | x in r
      ensures x in frame && Traded(x)
    {
      assert x in sorted;
      assert x in multiset(sorted);
    }
    assert NewestFirst(r);
    forall i, j | 0 <= i <= j < |r|
      ensures !LexLess(r[i].date, r[j].date)
    {
      NewestFirstPairwise(r, i, j);
    }
    assert |sorted| == |multiset(sorted)| == |TradedRows(frame)|;
  }

  /** With a non-negative `days`, no traded row left out is newer than a returned one. */
  lemma KlineRowsAreNewest(frame: seq<DayRow>, days: int, i: nat, j: nat)
    requires frame != [] && days >= 0
    requires var sorted := SortNewestFirst(TradedRows(frame));
      i < |KlineRows(frame, days).value| <= j < |sorted|
    ensures var sorted := SortNewestFirst(TradedRows(frame));
      !LexLess(KlineRows(frame, days).value[i].date, sorted[j].date)
  {
    var sorted := SortNewestFirst(TradedRows(frame));
    NewestFirstPairwise(sorted, i, j);
  }

  /** `timedelta` rejects a span of more than this many days. */
  const MaxTimedeltaDays := 999999999

  /** The day ordinal of 9999-12-31, the last date a `datetime` can hold (ordinal 1 is 0001-01-01). */
  const MaxOrdinal := 3652059

  /**
   * Whether `now - timedelta(days=2 * days)` is computed without `OverflowError`: the span fits a
   * `timedelta` and the start day is a representable date.
   */
  predicate WindowFits(today: int, days: int)
  {
    -MaxTimedeltaDays <= 2 * days <= MaxTimedeltaDays && 1 <= today - 2 * days <= MaxOrdinal
  }

  /**
   * The daily-history request, as an oracle of the symbol and the first and last day ordinals of the
   * window: `None` when it raises, else the frame it returns.
   */
  type HistApi = (string, int, int) -> Option<seq<DayRow>>

  /**
   * `fetch_kline_akshare`: the window of `2 * days` days ending today, the request for the prefixed
   * normalised symbol, then the row pipeline; `None` when the window overflows, the request fails
   * or no rows come back.
   */
  function FetchKlineAkshare(code: string, days: int, today: int, api: HistApi): (r: Option<seq<DayRow>>)
    ensures !WindowFits(today, days) ==> r.None?
    ensures WindowFits(today, days) ==>
      var request := api(FullSymbol(NormalizeStockCode(code)), today - 2 * days, today);
      (r.None? <==> request.None? || request == Some([]))
      && (r.Some? ==> r == KlineRows(request.value, days))
  {
    var symbol := NormalizeStockCode(code);
    if !WindowFits(today, days) then None
    else
      var fullSymbol := MarketPrefix(symbol) + symbol;
      match api(fullSymbol, today - 2 * days, today)
      case None => None
      case Some(frame) => KlineRows(frame, days)
  }

  /**
   * A window reaching back to or before 0001-01-01 gives `None`: with today in 2025, 400000 days
   * reach back 800000 days and overflow, which the `except` turns into `None`.
   */
  lemma LongWindowFails(code: string, days: int, today: int, api: HistApi)
    requires today <= 2 * days
    ensures FetchKlineAkshare(code, days, today, api).None?
  {
  }
}
