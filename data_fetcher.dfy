/**
 * The record rules of `data_fetcher.py`: the completeness test of a limit-up record, the
 * consecutive-board counter over a stock's daily history, the two frame parsers (the
 * East Money limit-up pool and the A-share limit list) with their exchange-suffix, ST and
 * price rules, and the choice between the two frames.
 */
module DataFetcher {
  import opened Common
  import OptimizeKline

  // ---------------------------------------------------------------- validate_data

  /** The fields a limit-up record must carry. */
  const RequiredFields: seq<string> := ["code", "name", "price", "limit_up_time"]

  /** `all(field in stock for field in fields)`. */
  function AllPresent(stock: map<string, Json>, fields: seq<string>): (r: bool)
    ensures r <==> forall i :: 0 <= i < |fields| ==> fields[i] in stock
    decreases |fields|
  {
    if fields == [] then true else fields[0] in stock && AllPresent(stock, fields[1..])
  }

  /** `all(stock[field] for field in fields)`, once every field is known to be present. */
  function AllTruthy(stock: map<string, Json>, fields: seq<string>): (r: bool)
    requires forall i :: 0 <= i < |fields| ==> fields[i] in stock
    ensures r <==> forall i :: 0 <= i < |fields| ==> Truthy(stock[fields[i]])
    decreases |fields|
  {
    if fields == [] then true else Truthy(stock[fields[0]]) && AllTruthy(stock, fields[1..])
  }

  /** `validate_data`: every required field is present and truthy. */
  function ValidateData(stock: map<string, Json>): (r: bool)
    ensures r <==> forall i :: 0 <= i < |RequiredFields| ==> RequiredFields[i] in stock && Truthy(stock[RequiredFields[i]])
  {
    AllPresent(stock, RequiredFields) && AllTruthy(stock, RequiredFields)
  }

  /** A record whose price is `0`, or whose limit-up time is the empty string, is rejected as incomplete. */
  lemma FalsyFieldRejected(stock: map<string, Json>, field: string, v: Json)
    requires field in RequiredFields && field in stock && stock[field] == v && !Truthy(v)
    ensures !ValidateData(stock)
  {
    var i :| 0 <= i < |RequiredFields| && RequiredFields[i] == field;
  }

  // ---------------------------------------------------------------- _calculate_consecutive_days

  /** `data.get('is_limit_up', False)` read as a condition. */
  predicate LimitUpDay(day: map<string, Json>)
  {
    Truthy(Get(day, "is_limit_up", JBool(false)))
  }

  /** The length of the run of limit-up days that `days` opens with. */
  function LeadingRun(days: seq<map<string, Json>>): (n: nat)
    ensures n <= |days|
    ensures forall k :: 0 <= k < n ==> LimitUpDay(days[k])
    ensures n < |days| ==> !LimitUpDay(days[n])
    decreases |days|
  {
    if days == [] || !LimitUpDay(days[0]) then 0 else 1 + LeadingRun(days[1..])
  }

  /** The run length is the only count with the three properties above. */
  lemma {:induction false} LeadingRunUnique(days: seq<map<string, Json>>, n: nat)
    requires n <= |days|
    requires forall k :: 0 <= k < n ==> LimitUpDay(days[k])
    requires n < |days| ==> !LimitUpDay(days[n])
    ensures LeadingRun(days) == n
    decreases n
  {
    if n > 0 {
      assert LimitUpDay(days[0]);
      forall k | 0 <= k < n - 1
        ensures LimitUpDay(days[1..][k])
      {
        assert days[1..][k] == days[k + 1];
      }
      if n - 1 < |days[1..]| {
        assert days[1..][n - 1] == days[n];
      }
      LeadingRunUnique(days[1..], n - 1);
    }
  }

  /** Python's `history[1:]`. */
  function Tail<T>(xs: seq<T>): seq<T>
  {
    if xs == [] then [] else xs[1..]
  }

  /**
   * `_calculate_consecutive_days`: the run of limit-up days after the first entry of the
   * history. The source treats that entry as today's; the history request ends at a fixed
   * date, so the model only promises the run after whichever entry comes first.
   */
  method CalculateConsecutiveDays(history: seq<map<string, Json>>) returns (consecutive: nat)
    ensures consecutive == LeadingRun(Tail(history))
    ensures |history| <= 1 ==> consecutive == 0
    ensures |history| > 1 ==> consecutive <= |history| - 1
  {
    var rest := Tail(history);
    consecutive := 0;
    var i := 0;
    while i < |rest|
      invariant 0 <= i <= |rest| && consecutive == i
      invariant forall k :: 0 <= k < i ==> LimitUpDay(rest[k])
    {
      if LimitUpDay(rest[i]) {
        consecutive := consecutive + 1;
      } else {
        LeadingRunUnique(rest, i);
        break;
      }
      i := i + 1;
    }
    if i == |rest| {
      LeadingRunUnique(rest, i);
    }
  }

  // ---------------------------------------------------------------- exchange suffixes and ST

  /** The two frame parsers. */
  datatype Parser = EmPool | LimitList

  /**
   * The code a parser stores: the East Money parser appends `.SH` to a code starting with 6,
   * `.SZ` with 0 or 3 and `.BJ` with 4 or 8; the limit-list parser has no `.BJ` branch.
   * Any other code is kept bare.
   */
  function FullCode(p: Parser, code: string): string
  {
    if StartsWith(code, "6") then code + ".SH"
    else if StartsWith(code, "0") || StartsWith(code, "3") then code + ".SZ"
    else if p == EmPool && (StartsWith(code, "4") || StartsWith(code, "8")) then code + ".BJ"
    else code
  }

  /** For a plain six-digit code the East Money rule is the k-line optimiser's `normalize_code`. */
  lemma EmAgreesWithNormalize(code: string)
    requires |code| == 6 && '.' !in code
    ensures FullCode(EmPool, code) == OptimizeKline.NormalizeCode(code)
  {
    ReplaceAllFree(code, ".", "");
    assert code[..6] == code;
    assert StartsWith(code, [code[0]]);
  }

  /** ... and normalising a stored East Money code gives it back. */
  lemma EmCodeIsNormal(code: string)
    requires |code| == 6 && '.' !in code
    ensures OptimizeKline.NormalizeCode(FullCode(EmPool, code)) == FullCode(EmPool, code)
  {
    EmAgreesWithNormalize(code);
    OptimizeKline.NormalizeIdempotent(code);
  }

  /** The limit-list parser leaves Beijing codes bare where the East Money parser suffixes them. */
  lemma LimitListLeavesBeijingBare(code: string)
    requires StartsWith(code, "4") || StartsWith(code, "8")
    ensures FullCode(LimitList, code) == code && FullCode(EmPool, code) == code + ".BJ"
  {
  }

  /** On every other code the two parsers agree. */
  lemma ParsersAgreeOffBeijing(code: string)
    requires !StartsWith(code, "4") && !StartsWith(code, "8")
    ensures FullCode(LimitList, code) == FullCode(EmPool, code)
  {
  }

  /** `'ST' in name or '*ST' in name`. */
  predicate IsSt(name: string)
  {
    Contains(name, "ST") || Contains(name, "*ST")
  }

  /** The `*ST` test is subsumed: a name is ST exactly when `ST` occurs in it. */
  lemma IsStExactly(name: string)
    ensures IsSt(name) <==> Contains(name, "ST")
  {
    if Contains(name, "*ST") {
      assert OccursAt("*ST", "ST", 1);
      ContainsInner(name, "*ST", "ST");
    }
  }

  // ---------------------------------------------------------------- the frame parsers

  /**
   * One row of a frame: the code and name as strings, the price as `float()` gives it
   * (`None` when that conversion raises), the limit-up time column when present, and
   * whether every other numeric cell the parser converts converts.
   */
  datatype Row = Row(code: string, name: string, price: Option<real>, limitTime: Option<string>, othersConvert: bool)

  /** A parsed limit-up stock, restricted to the fields the model follows. */
  datatype LimitUpStock = LimitUpStock(code: string, name: string, price: real, limitUpTime: string, consecutiveDays: nat, isSt: bool)

  /** `fetch_limit_up_history`: the daily history of a stock, an empty list when the lookup fails. */
  type History = string -> seq<map<string, Json>>

  /** What one row yields: nothing when its price does not convert, is not positive, or another cell raises. */
  function RowRecord(p: Parser, row: Row, history: History): Option<LimitUpStock>
  {
    if row.price.None? || row.price.value <= 0.0 || !row.othersConvert then None
    else
      var full := FullCode(p, row.code);
      var time := if row.limitTime.Some? then row.limitTime.value else "14:59:00";
      Some(LimitUpStock(full, row.name, row.price.value, time, LeadingRun(Tail(history(full))), IsSt(row.name)))
  }

  /** When a row yields a record, and what that record carries. */
  lemma RowRecordFields(p: Parser, row: Row, history: History)
    ensures var r := RowRecord(p, row, history);
      r.Some? <==> row.price.Some? && row.price.value > 0.0 && row.othersConvert
    ensures var r := RowRecord(p, row, history);
      r.Some? ==>
        (r.value.code == FullCode(p, row.code) && r.value.name == row.name
         && r.value.price == row.price.value && (r.value.isSt <==> Contains(row.name, "ST"))
         && r.value.consecutiveDays == LeadingRun(Tail(history(r.value.code))))
    ensures var r := RowRecord(p, row, history);
      r.Some? ==> r.value.limitUpTime == if row.limitTime.Some? then row.limitTime.value else "14:59:00"
  {
    IsStExactly(row.name);
  }

  /** The records of a frame, in row order. */
  function Parsed(p: Parser, rows: seq<Row>, history: History): seq<LimitUpStock>
    decreases |rows|
  {
    if rows == [] then []
    else
      var r := RowRecord(p, rows[|rows| - 1], history);
      Parsed(p, rows[..|rows| - 1], history) + (if r.Some? then [r.value] else [])
  }

  /** Whether row `i` of a frame yields `x`. */
  predicate YieldsAt(p: Parser, rows: seq<Row>, history: History, x: LimitUpStock, i: int)
  {
    0 <= i < |rows| && RowRecord(p, rows[i], history) == Some(x)
  }

  /** The records of a frame with one more row: those before, then the record of the new row. */
  lemma ParsedSnocMember(p: Parser, rows: seq<Row>, history: History, x: LimitUpStock)
    requires rows != []
    ensures x in Parsed(p, rows, history) <==>
      x in Parsed(p, rows[..|rows| - 1], history) || RowRecord(p, rows[|rows| - 1], history) == Some(x)
  {
  }

  /** Dropping the last row keeps what every earlier row yields. */
  lemma YieldsInit(p: Parser, rows: seq<Row>, history: History, x: LimitUpStock, i: int)
    requires rows != [] && i < |rows| - 1
    ensures YieldsAt(p, rows[..|rows| - 1], history, x, i) <==> YieldsAt(p, rows, history, x, i)
  {
    if 0 <= i {
      assert rows[..|rows| - 1][i] == rows[i];
    }
  }

  /** A record is parsed from a frame exactly when one of its rows yields it. */
  lemma {:induction false} ParsedMember(p: Parser, rows: seq<Row>, history: History, x: LimitUpStock)
    ensures x in Parsed(p, rows, history) <==> exists i :: YieldsAt(p, rows, history, x, i)
    decreases |rows|
  {
    if rows != [] {
      var init := rows[..|rows| - 1];
      var n := |rows| - 1;
      ParsedMember(p, init, history, x);
      ParsedSnocMember(p, rows, history, x);
      forall i | i < n
        ensures YieldsAt(p, init, history, x, i) <==> YieldsAt(p, rows, history, x, i)
      {
        YieldsInit(p, rows, history, x, i);
      }
      assert forall i :: YieldsAt(p, init, history, x, i) ==> i < n;
      assert YieldsAt(p, rows, history, x, n) <==> RowRecord(p, rows[n], history) == Some(x);
    }
  }

  /** No parser output is longer than its frame. */
  lemma {:induction false} ParsedLength(p: Parser, rows: seq<Row>, history: History)
    ensures |Parsed(p, rows, history)| <= |rows|
    decreases |rows|
  {
    if rows != [] {
      ParsedLength(p, rows[..|rows| - 1], history);
    }
  }

  /** No parser output is longer than its frame, and every record is the record of one of its rows. */
  lemma ParsedFromRows(p: Parser, rows: seq<Row>, history: History)
    ensures |Parsed(p, rows, history)| <= |rows|
    ensures forall x :: x in Parsed(p, rows, history) <==> exists i :: YieldsAt(p, rows, history, x, i)
  {
    ParsedLength(p, rows, history);
    forall x {
      ParsedMember(p, rows, history, x);
    }
  }

  method ParseRow(p: Parser, row: Row, history: History) returns (r: Option<LimitUpStock>)
    ensures r == RowRecord(p, row, history)
  {
    if row.price.None? || !row.othersConvert {
      return None;
    }
    var price := row.price.value;
    if price <= 0.0 {
      return None;
    }
    var fullCode := FullCode(p, row.code);
    IsStExactly(row.name);
    var isSt := Contains(row.name, "ST") || Contains(row.name, "*ST");
    var consecutiveDays := CalculateConsecutiveDays(history(fullCode));
    var limitTime := if row.limitTime.Some? then row.limitTime.value else "14:59:00";
    r := Some(LimitUpStock(fullCode, row.name, price, limitTime, consecutiveDays, isSt));
  }

  /**
   * `_parse_em_limit_up_data` and `_parse_limit_list_data`, which share one loop: a row is
   * skipped when its price is not positive or a conversion raises, and appended otherwise.
   */
  method ParseRows(p: Parser, rows: seq<Row>, history: History) returns (result: seq<LimitUpStock>)
    ensures result == Parsed(p, rows, history)
    ensures |result| <= |rows|
  {
    result := [];
    for i := 0 to |rows|
      invariant result == Parsed(p, rows[..i], history)
    {
      assert rows[..i + 1][..i] == rows[..i];
      var r := ParseRow(p, rows[i], history);
      if r.None? {
        continue;
      }
      result := result + [r.value];
    }
    assert rows[..|rows|] == rows;
    ParsedFromRows(p, rows, history);
  }

  // ---------------------------------------------------------------- _fetch_real_limit_up

  /**
   * `_fetch_real_limit_up`: both frames are requested (`None` when a request raises); a
   * non-empty East Money frame is parsed, else a non-empty limit list, else the answer is
   * empty. A raising request, or a date `strptime` rejects in the East Money parser,
   * falls back to the market scan, whose answer is `scan`.
   */
  method FetchRealLimitUp(em: Option<seq<Row>>, limitList: Option<seq<Row>>, dateParses: bool,
                          history: History, scan: seq<LimitUpStock>) returns (result: seq<LimitUpStock>)
    ensures em.None? || limitList.None? ==> result == scan
    ensures em.Some? && limitList.Some? && em.value != [] ==>
      result == if dateParses then Parsed(EmPool, em.value, history) else scan
    ensures em.Some? && limitList.Some? && em.value == [] ==> result == Parsed(LimitList, limitList.value, history)
    ensures em == Some([]) && limitList == Some([]) ==> result == []
  {
    if em.None? || limitList.None? {
      return scan;
    }
    if em.value != [] {
      if !dateParses {
        return scan;
      }
      result := ParseRows(EmPool, em.value, history);
    } else if limitList.value != [] {
      result := ParseRows(LimitList, limitList.value, history);
    } else {
      result := [];
    }
  }
}
