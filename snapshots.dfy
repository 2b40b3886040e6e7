/**
 * The per-day snapshot store `data/history/{limit_up,limit_down,explode}/<date>.json`,
 * shared by the history fetcher and the completeness checker. The directories are a map
 * from (category, file name) to what reading that file gives; a name absent from the map is
 * a missing file. Every writer in the scripts follows one rule: a fetched pool is written as
 * `{date, count = len(data), data}` only when it is non-empty.
 */
module Snapshots {
  import opened Common

  datatype Category = LimitUp | LimitDown | Explode

  /** The category directories, in the order every loop of the scripts visits them. */
  const Categories: seq<Category> := [LimitUp, LimitDown, Explode]

  function DirName(c: Category): string
  {
    match c
    case LimitUp => "limit_up"
    case LimitDown => "limit_down"
    case Explode => "explode"
  }

  /** What `json.load` gives for one existing file. */
  datatype FileState = Unparsable | Parsed(doc: Json)

  /** A file of the store: its category directory and its file name. */
  type FileKey = (Category, string)

  type Files = map<FileKey, FileState>

  /** An oracle for the remote pool endpoints: the records fetched for a category and date. */
  type Fetcher = (Category, string) -> seq<Json>

  function FileName(date: string): string
  {
    date + ".json"
  }

  /** The document `{"date": date, "count": len(data), "data": data}` the writers dump. */
  function SnapshotDoc(date: string, data: seq<Json>): (doc: Json)
    ensures doc.JObj? && doc.fields.Keys == {"date", "count", "data"}
    ensures doc.fields["count"] == JNum(|data| as real) && doc.fields["data"] == JArr(data)
    ensures doc.fields["date"] == JStr(date)
  {
    JObj(map["date" := JStr(date), "count" := JNum(|data| as real), "data" := JArr(data)])
  }

  /** One category of one date: the file is overwritten when the fetched list is non-empty. */
  function WriteIfNonEmpty(files: Files, c: Category, date: string, data: seq<Json>): Files
  {
    if data != [] then files[(c, FileName(date)) := Parsed(SnapshotDoc(date, data))] else files
  }

  /** One date: limit_up, then limit_down, then explode. */
  function FetchDate(files: Files, date: string, fetch: Fetcher): Files
  {
    var f1 := WriteIfNonEmpty(files, LimitUp, date, fetch(LimitUp, date));
    var f2 := WriteIfNonEmpty(f1, LimitDown, date, fetch(LimitDown, date));
    WriteIfNonEmpty(f2, Explode, date, fetch(Explode, date))
  }

  /** The store after fetching every date of `dates` in order. */
  function AfterFetch(files: Files, dates: seq<string>, fetch: Fetcher): Files
    decreases |dates|
  {
    if dates == [] then files
    else FetchDate(AfterFetch(files, dates[..|dates| - 1], fetch), dates[|dates| - 1], fetch)
  }

  /** The date a snapshot file name stands for, when the name is `<date>.json`. */
  function DateOfName(name: string): string
    requires EndsWith(name, ".json")
  {
    name[..|name| - 5]
  }

  lemma FileNameDate(date: string)
    ensures EndsWith(FileName(date), ".json") && DateOfName(FileName(date)) == date
  {
    assert FileName(date)[..|date|] == date;
  }

  /** Whether the fetch of `dates` writes the file `(c, name)`. */
  predicate WrittenBy(dates: seq<string>, fetch: Fetcher, c: Category, name: string)
  {
    EndsWith(name, ".json") && DateOfName(name) in dates && fetch(c, DateOfName(name)) != []
  }

  lemma FetchDateAt(files: Files, date: string, fetch: Fetcher, c: Category, name: string)
    ensures var r := FetchDate(files, date, fetch);
      if name == FileName(date) && fetch(c, date) != [] then
        (c, name) in r && r[(c, name)] == Parsed(SnapshotDoc(date, fetch(c, date)))
      else
        ((c, name) in r <==> (c, name) in files) && ((c, name) in files ==> r[(c, name)] == files[(c, name)])
  {
  }

  /** The last date writes the file of its own name; the earlier dates write the rest. */
  lemma WrittenBySnoc(init: seq<string>, last: string, fetch: Fetcher, c: Category, name: string)
    ensures WrittenBy(init + [last], fetch, c, name) <==>
      (name == FileName(last) && fetch(c, last) != []) || WrittenBy(init, fetch, c, name)
  {
    FileNameDate(last);
    if EndsWith(name, ".json") {
      assert FileName(DateOfName(name)) == name;
      assert DateOfName(name) in init + [last] <==> DateOfName(name) in init || DateOfName(name) == last;
    }
  }

  /** A file some fetched date writes holds that date's snapshot. */
  lemma {:induction false} AfterFetchWritten(files: Files, dates: seq<string>, fetch: Fetcher, c: Category, name: string)
    requires WrittenBy(dates, fetch, c, name)
    ensures var r := AfterFetch(files, dates, fetch);
      (c, name) in r && r[(c, name)] == Parsed(SnapshotDoc(DateOfName(name), fetch(c, DateOfName(name))))
    decreases |dates|
  {
    var init := dates[..|dates| - 1];
    var last := dates[|dates| - 1];
    assert dates == init + [last];
    WrittenBySnoc(init, last, fetch, c, name);
    FetchDateAt(AfterFetch(files, init, fetch), last, fetch, c, name);
    if name == FileName(last) && fetch(c, last) != [] {
      FileNameDate(last);
    } else {
      AfterFetchWritten(files, init, fetch, c, name);
    }
  }

  /** A file no fetched date writes is left as it was. */
  lemma {:induction false} AfterFetchKept(files: Files, dates: seq<string>, fetch: Fetcher, c: Category, name: string)
    requires !WrittenBy(dates, fetch, c, name)
    ensures var r := AfterFetch(files, dates, fetch);
      ((c, name) in r <==> (c, name) in files) && ((c, name) in files ==> r[(c, name)] == files[(c, name)])
    decreases |dates|
  {
    if dates != [] {
      var init := dates[..|dates| - 1];
      var last := dates[|dates| - 1];
      assert dates == init + [last];
      WrittenBySnoc(init, last, fetch, c, name);
      FetchDateAt(AfterFetch(files, init, fetch), last, fetch, c, name);
      AfterFetchKept(files, init, fetch, c, name);
    }
  }

  /**
   * What the fetch of a sequence of dates leaves in each file: the snapshot of the fetched
   * list when that list is non-empty, and otherwise whatever was there before (or nothing).
   */
  lemma AfterFetchAt(files: Files, dates: seq<string>, fetch: Fetcher, c: Category, name: string)
    ensures var r := AfterFetch(files, dates, fetch);
      if WrittenBy(dates, fetch, c, name) then
        (c, name) in r && r[(c, name)] == Parsed(SnapshotDoc(DateOfName(name), fetch(c, DateOfName(name))))
      else
        ((c, name) in r <==> (c, name) in files) && ((c, name) in files ==> r[(c, name)] == files[(c, name)])
  {
    if WrittenBy(dates, fetch, c, name) {
      AfterFetchWritten(files, dates, fetch, c, name);
    } else {
      AfterFetchKept(files, dates, fetch, c, name);
    }
  }

  /** The snapshot directories as a mutable store: the scripts overwrite files in place. */
  class Store {
    var files: Files

    constructor (initial: Files)
      ensures files == initial
    {
      files := initial;
    }

    /** `json.dump({"date": date, "count": len(data), "data": data}, open(<cat>/<date>.json, 'w'))`. */
    method WriteSnapshot(c: Category, date: string, data: seq<Json>)
      modifies this
      ensures files == old(files)[(c, FileName(date)) := Parsed(SnapshotDoc(date, data))]
    {
      files := files[(c, FileName(date)) := Parsed(SnapshotDoc(date, data))];
    }
  }
}
